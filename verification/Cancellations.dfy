/** Cancelling a booking: the deadline, the penalty ladder and the reliability score. */
module Cancellations {
  import opened Wrappers
  import opened Calendar
  import opened Reviews

  /** What the booking service answers about a booking. */
  datatype Booking = Booking(
    passenger: UserId, status: string, paymentStatus: string, advance: real, createdAt: Time, tripStart: Time)

  /** `hoursBeforeTrip` is in hundredths of an hour. */
  datatype Cancellation = Cancellation(
    booking: BookingId, canceller: UserId, role: Role, late: bool, hoursBeforeTrip: int,
    advancePaid: bool, penalized: bool, penalty: real, offenses: nat)

  datatype Request = Request(
    user: UserId, booking: BookingId, role: Role, found: Option<Booking>, owners: set<UserId>, now: Time)

  datatype Error = BookingNotFound | ForbiddenUser | InvalidBookingState

  // ---------------------------------------------------------------------------
  // The deadline
  // ---------------------------------------------------------------------------

  function Min(a: int, b: int): int {
    if a < b then a else b
  }

  function Max(a: int, b: int): int {
    if a > b then a else b
  }

  function DeadlineDays(createdAt: Time, tripStart: Time): int {
    Min(7, Max(0, DayOf(tripStart - createdAt)) / 2)
  }

  /** calculateDeadline: whole days before the trip, cut down to UTC midnight. */
  function Deadline(createdAt: Time, tripStart: Time): Time {
    DayOf(tripStart - DeadlineDays(createdAt, tripStart) * DAY_MS) * DAY_MS
  }

  /**
   The deadline is the UTC midnight of the day some days before the trip's: half as many, rounded down, as
   there are whole days from the booking to the trip, but at least none and at most seven.
   */
  lemma DeadlineIsDaysBefore(createdAt: Time, tripStart: Time, n: int)
    requires 0 <= n <= 7 && (n < 7 ==> tripStart - createdAt < (2 * n + 2) * DAY_MS)
    requires n > 0 ==> 2 * n * DAY_MS <= tripStart - createdAt
    ensures Deadline(createdAt, tripStart) == (DayOf(tripStart) - n) * DAY_MS
  {
  }

  /** The deadline is a UTC midnight in the eight days up to the trip. */
  lemma DeadlineIsAMidnightBeforeTheTrip(createdAt: Time, tripStart: Time)
    ensures Deadline(createdAt, tripStart) % DAY_MS == 0
    ensures tripStart - 8 * DAY_MS < Deadline(createdAt, tripStart) <= tripStart
  {
  }

  /** A trip at least two days out leaves some time to cancel for free. */
  lemma DeadlineIsAfterBooking(createdAt: Time, tripStart: Time)
    requires tripStart - createdAt >= 2 * DAY_MS
    ensures createdAt < Deadline(createdAt, tripStart)
  {
  }

  /** Moving the trip later moves the deadline earlier by at most one day. */
  lemma LaterTripDeadline(createdAt: Time, tripStart: Time, later: Time)
    requires tripStart <= later
    ensures Deadline(createdAt, later) >= Deadline(createdAt, tripStart) - DAY_MS
  {
  }

  /** And it can do so: a millisecond later, and a day less to cancel. */
  lemma LaterTripCanCostADay()
    ensures Deadline(43_200_000, 215_999_999) == 2 * DAY_MS
    ensures Deadline(43_200_000, 216_000_000) == DAY_MS
  {
  }

  // ---------------------------------------------------------------------------
  // One cancellation
  // ---------------------------------------------------------------------------

  function CountBy(log: seq<Cancellation>, user: UserId): nat {
    if log == [] then 0 else CountBy(log[..|log| - 1], user) + if log[|log| - 1].canceller == user then 1 else 0
  }

  function CountLate(log: seq<Cancellation>, user: UserId): (n: nat)
    ensures n <= CountBy(log, user)
  {
    if log == [] then 0
    else CountLate(log[..|log| - 1], user) + if log[|log| - 1].canceller == user && log[|log| - 1].late then 1 else 0
  }

  predicate Late(b: Booking, now: Time) {
    b.paymentStatus == "PAID" && now > Deadline(b.createdAt, b.tripStart)
  }

  /** Number((ms / HOUR_MS).toFixed(2)), in hundredths: the nearest one, halves away from zero. */
  function Hours(ms: int): (h: int)
    ensures ms >= 0 ==> -HOUR_MS < 2 * (h * HOUR_MS - 100 * ms) <= HOUR_MS
    ensures ms < 0 ==> -HOUR_MS <= 2 * (h * HOUR_MS - 100 * ms) < HOUR_MS
  {
    if ms >= 0 then (200 * ms + HOUR_MS) / (2 * HOUR_MS) else -((-200 * ms + HOUR_MS) / (2 * HOUR_MS))
  }

  /** cancelBooking: the record it adds, or the reason it refuses. */
  function Decide(log: seq<Cancellation>, r: Request): Result<Cancellation, Error> {
    if r.found.None? then Err(BookingNotFound)
    else if r.role == PassengerRole && r.found.value.passenger != r.user then Err(ForbiddenUser)
    else if r.role == OwnerRole && r.user !in r.owners then Err(ForbiddenUser)
    else if r.found.value.status in {"CANCELLED", "COMPLETED", "IN_TRANSIT"} then Err(InvalidBookingState)
    else
      var b := r.found.value;
      var late, prior := Late(b, r.now), CountLate(log, r.user);
      Ok(Cancellation(
           r.booking, r.user, r.role, late, Hours(b.tripStart - r.now), b.paymentStatus == "PAID", late,
           if !late then 0.0 else if prior == 0 then b.advance * 0.5 else b.advance,
           if late then prior else 0))
  }

  /** The booking service stores PENDING, COMPLETED or FAILED, so none of its bookings is ever cancelled late. */
  lemma StoredStatusesAreNeverLate(log: seq<Cancellation>, r: Request)
    requires r.found.Some? && r.found.value.paymentStatus in {"PENDING", "COMPLETED", "FAILED"}
    ensures Decide(log, r).Ok? ==> !Decide(log, r).value.late && Decide(log, r).value.penalty == 0.0
  {
  }

  // ---------------------------------------------------------------------------
  // The ladder over a whole history
  // ---------------------------------------------------------------------------

  /** Every record was decided on the records before it. */
  ghost predicate IsHistory(log: seq<Cancellation>, rs: seq<Request>) {
    && |log| == |rs|
    && forall i | 0 <= i < |log| :: Decide(log[..i], rs[i]) == Ok(log[i])
  }

  /** Where in the log a user's late cancellations are, first to last. */
  function LateOnes(log: seq<Cancellation>, user: UserId): (idx: seq<nat>)
    ensures forall k | 0 <= k < |idx| :: idx[k] < |log| && log[idx[k]].canceller == user && log[idx[k]].late
    ensures forall j, k | 0 <= j < k < |idx| :: idx[j] < idx[k]
    ensures |idx| == CountLate(log, user)
  {
    if log == [] then []
    else
      LateOnes(log[..|log| - 1], user)
      + if log[|log| - 1].canceller == user && log[|log| - 1].late then [|log| - 1] else []
  }

  lemma {:induction false} LateOnesAreAll(log: seq<Cancellation>, user: UserId, i: nat)
    requires i < |log| && log[i].canceller == user && log[i].late
    ensures i in LateOnes(log, user)
  {
    if i < |log| - 1 {
      LateOnesAreAll(log[..|log| - 1], user, i);
    }
  }

  /** The k-th late one (from 0) has exactly k before it. */
  lemma {:induction false} LateRank(log: seq<Cancellation>, user: UserId, k: nat)
    requires k < |LateOnes(log, user)|
    ensures CountLate(log[..LateOnes(log, user)[k]], user) == k
  {
    var front := log[..|log| - 1];
    if k < |LateOnes(front, user)| {
      LateRank(front, user, k);
      assert log[..LateOnes(front, user)[k]] == front[..LateOnes(front, user)[k]];
    } else {
      assert LateOnes(log, user)[k] == |log| - 1;
    }
  }

  /**
   The ladder: in any history a user's late cancellations record 0, 1, 2, ... prior offenses in order;
   the first costs half the advance, every later one all of it, and an on-time one nothing.
   */
  lemma PenaltyLadder(log: seq<Cancellation>, rs: seq<Request>, user: UserId)
    requires IsHistory(log, rs)
    ensures forall k | 0 <= k < |LateOnes(log, user)| ::
              var i := LateOnes(log, user)[k];
              && rs[i].found.Some?
              && log[i].offenses == k
              && log[i].penalty == if k == 0 then rs[i].found.value.advance * 0.5 else rs[i].found.value.advance
    ensures forall i | 0 <= i < |log| && !log[i].late :: log[i].penalty == 0.0 && log[i].offenses == 0
    ensures forall i | 0 <= i < |log| && log[i].canceller == user && log[i].late :: i in LateOnes(log, user)
  {
    forall k | 0 <= k < |LateOnes(log, user)|
      ensures
        var i := LateOnes(log, user)[k];
        && rs[i].found.Some?
        && log[i].offenses == k
        && log[i].penalty == if k == 0 then rs[i].found.value.advance * 0.5 else rs[i].found.value.advance
    {
      var i := LateOnes(log, user)[k];
      LateRank(log, user, k);
      assert Decide(log[..i], rs[i]) == Ok(log[i]);
    }
    forall i | 0 <= i < |log| && !log[i].late ensures log[i].penalty == 0.0 && log[i].offenses == 0 {
      assert Decide(log[..i], rs[i]) == Ok(log[i]);
    }
    forall i | 0 <= i < |log| && log[i].canceller == user && log[i].late ensures i in LateOnes(log, user) {
      LateOnesAreAll(log, user, i);
    }
  }

  // ---------------------------------------------------------------------------
  // The reliability score
  // ---------------------------------------------------------------------------

  datatype Badge = Excellent | VeryGood | Fair | Concerning | Poor

  /** Number((late / total * 100).toFixed(2)), in hundredths of a percent. */
  function LateRate(total: nat, late: nat): nat {
    if total == 0 then 0 else (20_000 * late + total) / (2 * total)
  }

  function BadgeOf(rate: nat): Badge {
    if rate == 0 then Excellent
    else if rate < 500 then VeryGood
    else if rate < 1000 then Fair
    else if rate < 2000 then Concerning
    else Poor
  }

  /** In tenths: 5.0, 4.5, 3.5, 2.5 and 1.5. */
  function ScoreOf(b: Badge): nat {
    match b
    case Excellent => 50
    case VeryGood => 45
    case Fair => 35
    case Concerning => 25
    case Poor => 15
  }

  function Reliability(log: seq<Cancellation>, user: UserId): Badge {
    BadgeOf(LateRate(CountBy(log, user), CountLate(log, user)))
  }

  /** Rounding keeps the order of two rates. */
  lemma RateMonotone(total: nat, late: nat, total': nat, late': nat)
    requires total > 0 && total' > 0 && late * total' <= late' * total
    ensures LateRate(total, late) <= LateRate(total', late')
  {
    var r := LateRate(total, late);
    calc {
      (2 * r * total') * total;
    ==
      (r * (2 * total)) * total';
    <= { assert r * (2 * total) <= 20_000 * late + total; }
      (20_000 * late + total) * total';
    ==
      20_000 * (late * total') + total * total';
    <=
      20_000 * (late' * total) + total * total';
    ==
      (20_000 * late' + total') * total;
    }
    assert 2 * r * total' <= 20_000 * late' + total' by {
      CancelFactor(2 * r * total', 20_000 * late' + total', total);
    }
    AtMostQuotient(r, 20_000 * late' + total', 2 * total');
  }

  lemma CancelFactor(a: int, b: int, f: int)
    requires f > 0
    ensures a > b ==> a * f > b * f
  {
  }

  lemma AtMostQuotient(r: nat, n: nat, d: nat)
    requires d > 0
    ensures r > n / d ==> r * d > n
  {
    if r > n / d {
      assert r * d >= (n / d + 1) * d;
    }
  }

  lemma CountsAfter(log: seq<Cancellation>, c: Cancellation, user: UserId)
    ensures CountBy(log + [c], user) == CountBy(log, user) + if c.canceller == user then 1 else 0
    ensures CountLate(log + [c], user) == CountLate(log, user) + if c.canceller == user && c.late then 1 else 0
  {
  }

  /** The rate falls, or stays, with a cancellation on time, and rises, or stays, with a late one. */
  lemma RateFollowsConduct(total: nat, late: nat)
    requires late <= total
    ensures LateRate(total + 1, late) <= LateRate(total, late) <= LateRate(total + 1, late + 1)
  {
    if total == 0 {
      assert LateRate(1, 0) == 0;
    } else {
      assert late * (total + 1) <= (late + 1) * total && late * total <= late * (total + 1);
      RateMonotone(total, late, total + 1, late + 1);
      RateMonotone(total + 1, late, total, late);
    }
  }

  /** One more cancellation on time never lowers the score, one more late never raises it. */
  lemma ScoreFollowsConduct(log: seq<Cancellation>, c: Cancellation)
    ensures c.late ==> ScoreOf(Reliability(log + [c], c.canceller)) <= ScoreOf(Reliability(log, c.canceller))
    ensures !c.late ==> ScoreOf(Reliability(log + [c], c.canceller)) >= ScoreOf(Reliability(log, c.canceller))
    ensures forall user | user != c.canceller :: Reliability(log + [c], user) == Reliability(log, user)
  {
    CountsAfter(log, c, c.canceller);
    RateFollowsConduct(CountBy(log, c.canceller), CountLate(log, c.canceller));
    forall user | user != c.canceller ensures Reliability(log + [c], user) == Reliability(log, user) {
      CountsAfter(log, c, user);
    }
  }

  lemma QuotientAtLeast(n: int, d: int, q: int)
    requires d > 0
    ensures n / d >= q <==> n >= q * d
  {
    var r := n / d;
    assert r * d <= n < (r + 1) * d;
    if r >= q {
      assert r * d >= q * d;
    } else {
      assert (r + 1) * d <= q * d;
    }
  }

  lemma RateAtLeast(total: nat, late: nat, rate: nat)
    requires total > 0
    ensures LateRate(total, late) >= rate <==> 20_000 * late >= (2 * rate - 1) * total
  {
    QuotientAtLeast(20_000 * late + total, 2 * total, rate);
    assert rate * (2 * total) - total == (2 * rate - 1) * total;
  }

  /** Where in the log the user's cancellations are. */
  function AllBy(log: seq<Cancellation>, user: UserId): set<nat> {
    set i | 0 <= i < |log| && log[i].canceller == user
  }

  lemma {:induction false} AllCounted(log: seq<Cancellation>, user: UserId)
    ensures CountBy(log, user) == |AllBy(log, user)|
  {
    if log != [] {
      var n := |log| - 1;
      AllCounted(log[..n], user);
      assert AllBy(log, user) == AllBy(log[..n], user) + if log[n].canceller == user then {n} else {};
    }
  }

  /**
   The badges, by the share of late cancellations in two decimals of a percent: at most 0.00 is Excellent,
   below 5 Very Good, below 10 Fair, below 20 Concerning; and the scores that go with them, in tenths.
   */
  lemma BadgeIff(log: seq<Cancellation>, user: UserId)
    ensures
      var total, late, badge := |AllBy(log, user)|, |LateOnes(log, user)|, Reliability(log, user);
      && (badge == Poor <==> late > 0 && 20_000 * late >= 3999 * total)
      && (badge == Concerning <==> late > 0 && 1999 * total <= 20_000 * late < 3999 * total)
      && (badge == Fair <==> late > 0 && 999 * total <= 20_000 * late < 1999 * total)
      && (badge == VeryGood <==> late > 0 && total <= 20_000 * late < 999 * total)
      && ScoreOf(badge) == (match badge case Excellent => 50 case VeryGood => 45 case Fair => 35
                                        case Concerning => 25 case Poor => 15)
  {
    AllCounted(log, user);
    var total, late := CountBy(log, user), CountLate(log, user);
    if total > 0 {
      RateAtLeast(total, late, 1);
      RateAtLeast(total, late, 500);
      RateAtLeast(total, late, 1000);
      RateAtLeast(total, late, 2000);
    }
  }

  lemma RateIsZeroIff(total: nat, late: nat)
    ensures LateRate(total, late) == 0 <==> total == 0 || 20_000 * late < total
  {
  }

  /**
   Because the rate is rounded first, Excellent does not mean no late cancellation: it means fewer
   than one in 20000.
   */
  lemma ExcellentIff(log: seq<Cancellation>, user: UserId)
    ensures Reliability(log, user) == Excellent <==>
            CountLate(log, user) == 0 || 20_000 * CountLate(log, user) < CountBy(log, user)
  {
    RateIsZeroIff(CountBy(log, user), CountLate(log, user));
  }
}
