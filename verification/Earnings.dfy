/** An owner's earnings: monthly and annual totals over completed rides, by vehicle, and their rounded fees. */
module Earnings {
  import opened Wrappers
  import opened Pricing

  type VehicleId = nat
  type Month = m: int | 1 <= m <= 12 witness 1

  datatype Date = Date(year: int, month: Month)

  /** A completed vehicle row of the owner; the price is in paise. */
  datatype Ride = Ride(vehicle: VehicleId, price: int, completedAt: Option<Date>)

  datatype Tally = Tally(gross: int, trips: nat)

  /** Month 0 means the whole year. */
  predicate Counts(r: Ride, year: int, month: int) {
    r.completedAt.Some? && r.completedAt.value.year == year && (month == 0 || r.completedAt.value.month == month)
  }

  function AddRide(t: Tally, r: Ride): Tally {
    Tally(t.gross + r.price, t.trips + 1)
  }

  function Total(rides: seq<Ride>, year: int, month: int): Tally {
    if rides == [] then Tally(0, 0)
    else
      var t, r := Total(rides[..|rides| - 1], year, month), rides[|rides| - 1];
      if Counts(r, year, month) then AddRide(t, r) else t
  }

  /** A ride counts with its price when it was completed in the year, and in the month if one is asked for. */
  lemma TotalOfOne(r: Ride, year: int, month: int)
    ensures Total([r], year, month) ==
            match r.completedAt
            case None => Tally(0, 0)
            case Some(Date(y, m)) => if y == year && (month == 0 || m == month) then Tally(r.price, 1) else Tally(0, 0)
  {
    assert [r][..0] == [];
  }

  /** And the totals of two lists of rides are those of the joined list. */
  lemma {:induction false} TotalsAdd(a: seq<Ride>, b: seq<Ride>, year: int, month: int)
    ensures
      var x, y := Total(a, year, month), Total(b, year, month);
      Total(a + b, year, month) == Tally(x.gross + y.gross, x.trips + y.trips)
  {
    if b == [] {
      assert a + b == a;
    } else {
      assert (a + b)[..|a + b| - 1] == a + b[..|b| - 1];
      TotalsAdd(a, b[..|b| - 1], year, month);
    }
  }

  function OfVehicle(rides: seq<Ride>, v: VehicleId): (own: seq<Ride>)
    ensures forall r <- own :: r in rides && r.vehicle == v
  {
    if rides == [] then []
    else OfVehicle(rides[..|rides| - 1], v) + if rides[|rides| - 1].vehicle == v then [rides[|rides| - 1]] else []
  }

  /** Three percent, to the paisa. */
  function Fee(gross: int): int {
    PartOf(gross, 0.03)
  }

  // ---------------------------------------------------------------------------
  // By vehicle
  // ---------------------------------------------------------------------------

  ghost function SumOf(m: map<VehicleId, Tally>): Tally {
    if m == map[] then Tally(0, 0)
    else
      var v :| v in m;
      var rest := SumOf(m - {v});
      Tally(rest.gross + m[v].gross, rest.trips + m[v].trips)
  }

  lemma {:induction false} SumWithout(m: map<VehicleId, Tally>, v: VehicleId)
    requires v in m
    ensures SumOf(m) == Tally(SumOf(m - {v}).gross + m[v].gross, SumOf(m - {v}).trips + m[v].trips)
    decreases |m|
  {
    var w :| w in m && SumOf(m) == Tally(SumOf(m - {w}).gross + m[w].gross, SumOf(m - {w}).trips + m[w].trips);
    if w != v {
      SumWithout(m - {w}, v);
      SumWithout(m - {v}, w);
      assert m - {w} - {v} == m - {v} - {w};
    }
  }

  function TallyAt(m: map<VehicleId, Tally>, v: VehicleId): Tally {
    if v in m then m[v] else Tally(0, 0)
  }

  lemma SumAfterRide(m: map<VehicleId, Tally>, r: Ride)
    ensures SumOf(m[r.vehicle := AddRide(TallyAt(m, r.vehicle), r)]) == AddRide(SumOf(m), r)
  {
    var after := m[r.vehicle := AddRide(TallyAt(m, r.vehicle), r)];
    SumWithout(after, r.vehicle);
    assert after - {r.vehicle} == m - {r.vehicle};
    if r.vehicle in m {
      SumWithout(m, r.vehicle);
    } else {
      assert m - {r.vehicle} == m;
    }
  }

  /** Every vehicle with a counted ride is listed, with the total of its own rides. */
  predicate IsByVehicle(m: map<VehicleId, Tally>, rides: seq<Ride>, year: int, month: int) {
    && (forall v <- m :: m[v] == Total(OfVehicle(rides, v), year, month))
    && (forall r <- rides :: Counts(r, year, month) ==> r.vehicle in m)
    && (forall v <- m :: exists r <- rides :: Counts(r, year, month) && r.vehicle == v)
  }

  lemma TotalOfVehicleOneMore(rides: seq<Ride>, v: VehicleId, year: int, month: int)
    requires rides != []
    ensures
      var t, r := Total(OfVehicle(rides[..|rides| - 1], v), year, month), rides[|rides| - 1];
      Total(OfVehicle(rides, v), year, month) == if r.vehicle == v && Counts(r, year, month) then AddRide(t, r) else t
  {
    var front, r := OfVehicle(rides[..|rides| - 1], v), rides[|rides| - 1];
    assert (front + [r])[..|front|] == front && front + [] == front;
  }

  lemma {:induction false} NoRideNoTotal(rides: seq<Ride>, year: int, month: int)
    requires forall r <- rides :: !Counts(r, year, month)
    ensures Total(rides, year, month) == Tally(0, 0)
  {
    if rides != [] {
      assert rides[|rides| - 1] in rides;
      NoRideNoTotal(rides[..|rides| - 1], year, month);
    }
  }

  /** One more ride, counted or not, keeps the map right. */
  lemma ByVehicleOneMore(m: map<VehicleId, Tally>, rides: seq<Ride>, r: Ride, year: int, month: int)
    requires IsByVehicle(m, rides, year, month)
    ensures IsByVehicle(if Counts(r, year, month) then m[r.vehicle := AddRide(TallyAt(m, r.vehicle), r)] else m,
                        rides + [r], year, month)
  {
    var more := rides + [r];
    assert more[..|more| - 1] == rides;
    var after := if Counts(r, year, month) then m[r.vehicle := AddRide(TallyAt(m, r.vehicle), r)] else m;
    forall v <- after ensures after[v] == Total(OfVehicle(more, v), year, month) {
      TotalOfVehicleOneMore(more, v, year, month);
      if v !in m {
        NoRideNoTotal(OfVehicle(rides, v), year, month);
      }
    }
    forall v <- after ensures exists x <- more :: Counts(x, year, month) && x.vehicle == v {
      if v in m {
        var x :| x in rides && Counts(x, year, month) && x.vehicle == v;
        assert x in more;
      } else {
        assert r in more;
      }
    }
  }

  function ByVehicle(rides: seq<Ride>, year: int, month: int): map<VehicleId, Tally> {
    if rides == [] then map[]
    else
      var m, r := ByVehicle(rides[..|rides| - 1], year, month), rides[|rides| - 1];
      if Counts(r, year, month) then m[r.vehicle := AddRide(TallyAt(m, r.vehicle), r)] else m
  }

  /** The map splits the total: a vehicle's entry is what its own rides make, and the entries sum to all. */
  lemma {:induction false} ByVehicleSplitsTheTotal(rides: seq<Ride>, year: int, month: int)
    ensures IsByVehicle(ByVehicle(rides, year, month), rides, year, month)
    ensures SumOf(ByVehicle(rides, year, month)) == Total(rides, year, month)
  {
    if rides != [] {
      var front, r := rides[..|rides| - 1], rides[|rides| - 1];
      ByVehicleSplitsTheTotal(front, year, month);
      ByVehicleOneMore(ByVehicle(front, year, month), front, r, year, month);
      SumAfterRide(ByVehicle(front, year, month), r);
      assert front + [r] == rides;
    }
  }

  /** A vehicle's entry starts at nothing, then takes the ride. */
  method Record(byVehicle: map<VehicleId, Tally>, r: Ride) returns (m: map<VehicleId, Tally>)
    ensures m == byVehicle[r.vehicle := AddRide(TallyAt(byVehicle, r.vehicle), r)]
  {
    m := byVehicle;
    if r.vehicle !in m {
      m := m[r.vehicle := Tally(0, 0)];
    }
    m := m[r.vehicle := Tally(m[r.vehicle].gross + r.price, m[r.vehicle].trips + 1)];
  }

  /** getOwnerEarnings. */
  method OwnerEarnings(rides: seq<Ride>, year: int, month: int)
    returns (total: Tally, byVehicle: map<VehicleId, Tally>, fee: int, net: int)
    ensures total == Total(rides, year, month)
    ensures IsByVehicle(byVehicle, rides, year, month) && SumOf(byVehicle) == total
    ensures IsRounded(fee, 0.03 * total.gross as real) && fee == Fee(total.gross) && fee + net == total.gross
  {
    var gross, trips := 0, 0;
    byVehicle := map[];
    for i := 0 to |rides|
      invariant Tally(gross, trips) == Total(rides[..i], year, month)
      invariant byVehicle == ByVehicle(rides[..i], year, month)
    {
      var r := rides[i];
      assert rides[..i + 1][..i] == rides[..i];
      if Counts(r, year, month) {
        gross := gross + r.price;
        trips := trips + 1;
        byVehicle := Record(byVehicle, r);
      }
    }
    assert rides[..|rides|] == rides;
    ByVehicleSplitsTheTotal(rides, year, month);
    total := Tally(gross, trips);
    fee := Round(gross as real * 0.03);
    net := gross - fee;
  }

  /** downloadEarningsStatement. */
  method EarningsStatement(rides: seq<Ride>, year: int) returns (total: Tally, fee: int, net: int)
    ensures total == Total(rides, year, 0)
    ensures IsRounded(fee, 0.03 * total.gross as real) && fee == Fee(total.gross) && fee + net == total.gross
  {
    var gross, trips := 0, 0;
    for i := 0 to |rides|
      invariant Tally(gross, trips) == Total(rides[..i], year, 0)
    {
      assert rides[..i + 1][..i] == rides[..i];
      if rides[i].completedAt.Some? && rides[i].completedAt.value.year == year {
        gross := gross + rides[i].price;
        trips := trips + 1;
      }
    }
    assert rides[..|rides|] == rides;
    total := Tally(gross, trips);
    fee := Round(gross as real * 0.03);
    net := gross - fee;
  }

  // ---------------------------------------------------------------------------
  // Months and the year
  // ---------------------------------------------------------------------------

  /** The totals of months 1 to n together. */
  function FirstMonths(rides: seq<Ride>, year: int, n: nat): Tally {
    if n == 0 then Tally(0, 0)
    else
      var before, t := FirstMonths(rides, year, n - 1), Total(rides, year, n);
      Tally(before.gross + t.gross, before.trips + t.trips)
  }

  lemma {:induction false} FirstMonthsOneMore(rides: seq<Ride>, year: int, n: nat)
    requires rides != []
    ensures
      var before, r := FirstMonths(rides[..|rides| - 1], year, n), rides[|rides| - 1];
      FirstMonths(rides, year, n) ==
      if Counts(r, year, 0) && r.completedAt.value.month <= n then AddRide(before, r) else before
  {
    if n > 0 {
      FirstMonthsOneMore(rides, year, n - 1);
    }
  }

  lemma {:induction false} NoMonths(year: int, n: nat)
    ensures FirstMonths([], year, n) == Tally(0, 0)
  {
    if n > 0 {
      NoMonths(year, n - 1);
    }
  }

  /** The twelve months are the year: no ride is lost and none counted twice. */
  lemma {:induction false} MonthsMakeTheYear(rides: seq<Ride>, year: int)
    ensures FirstMonths(rides, year, 12) == Total(rides, year, 0)
  {
    if rides == [] {
      NoMonths(year, 12);
    } else {
      MonthsMakeTheYear(rides[..|rides| - 1], year);
      FirstMonthsOneMore(rides, year, 12);
    }
  }

  function FeesOfFirstMonths(rides: seq<Ride>, year: int, n: nat): int {
    if n == 0 then 0 else FeesOfFirstMonths(rides, year, n - 1) + Fee(Total(rides, year, n).gross)
  }

  /** In hundredths of a paisa a fee is at most 50 above three percent and at most 49 below. */
  lemma FeeError(gross: int)
    ensures -49 <= 100 * Fee(gross) - 3 * gross <= 50
  {
  }

  lemma {:induction false} FeesError(rides: seq<Ride>, year: int, n: nat)
    ensures -49 * n <= 100 * FeesOfFirstMonths(rides, year, n) - 3 * FirstMonths(rides, year, n).gross <= 50 * n
  {
    if n > 0 {
      FeesError(rides, year, n - 1);
      FeeError(Total(rides, year, n).gross);
    }
  }

  /** Rounded month by month, the fees of a year differ from the annual fee by at most 6 paise. */
  lemma MonthlyFeesNearAnnual(rides: seq<Ride>, year: int)
    ensures -6 <= FeesOfFirstMonths(rides, year, 12) - Fee(Total(rides, year, 0).gross) <= 6
  {
    MonthsMakeTheYear(rides, year);
    FeesError(rides, year, 12);
    FeeError(Total(rides, year, 0).gross);
  }

  /** One ride of half a rupee in each of the first n months. */
  function HalfRupees(year: int, n: nat): seq<Ride>
    requires n <= 12
  {
    if n == 0 then [] else HalfRupees(year, n - 1) + [Ride(0, 50, Some(Date(year, n)))]
  }

  lemma {:induction false} HalfRupeeMonth(year: int, n: nat, month: Month)
    requires n <= 12
    ensures Total(HalfRupees(year, n), year, month).gross == if month <= n then 50 else 0
  {
    if n > 0 {
      HalfRupeeMonth(year, n - 1, month);
      assert HalfRupees(year, n)[..|HalfRupees(year, n)| - 1] == HalfRupees(year, n - 1);
    }
  }

  lemma {:induction false} HalfRupeeFees(year: int, n: nat)
    requires n <= 12
    ensures FirstMonths(HalfRupees(year, 12), year, n).gross == 50 * n
    ensures FeesOfFirstMonths(HalfRupees(year, 12), year, n) == 2 * n
  {
    if n > 0 {
      HalfRupeeFees(year, n - 1);
      HalfRupeeMonth(year, 12, n);
      FeeError(50);
    }
  }

  /** And they can be 6 apart: half a rupee every month. */
  lemma MonthlyFeesCanBeSixApart(year: int)
    ensures
      var rides := HalfRupees(year, 12);
      FeesOfFirstMonths(rides, year, 12) - Fee(Total(rides, year, 0).gross) == 6
  {
    MonthsMakeTheYear(HalfRupees(year, 12), year);
    HalfRupeeFees(year, 12);
    FeeError(600);
  }
}
