/**
 What a vehicle search means to who asks: which vehicles it lists, criterion by criterion, and how the
 results of related searches relate. Stated of the answers the services give after any run.
 */
module Searches {
  import opened Wrappers
  import opened Calendar
  import opened Text
  import opened Catalog
  import opened AvailabilityCache

  /** The seats a vehicle of this capacity has for sure; eight and more stands for any number. */
  predicate HasSeats(c: Capacity, n: nat) {
    match c
    case FourFive => n <= 5
    case SixSeven => n <= 7
    case EightPlus => true
  }

  /** The asked category restricts only when it is a name other than "all", in any letter case. */
  predicate NamesCategory(q: Query) {
    q.vehicleType.Some? && q.vehicleType.value != "" && !SameLetters(q.vehicleType.value, "all")
  }

  /** The vehicle is offered, and meets every criterion that was given. */
  ghost predicate Suits(x: Vehicle, q: Query) {
    && x.status == Active && x.online
    && (forall p :: q.origin == Some(p) ==> p in x.listing.reach)
    && (NamesCategory(q) ==> q.vehicleType == Some(x.listing.category))
    && (forall n :: q.seats == Some(n) ==> HasSeats(x.listing.capacity, n))
    && (forall c :: q.color == Some(c) && c != "" ==> SameLetters(c, x.listing.color))
    && (forall b :: q.ac == Some(b) ==> x.listing.hasAC == b)
  }

  /** No block of the vehicle covers any asked day; a missing date is today. */
  ghost predicate NeverBlocked(db: Db, v: VehicleId, q: Query, now: Time) {
    forall d, b | q.first.GetOr(DayOf(now)) <= d <= q.last.GetOr(DayOf(now)) && b in db.blocks ::
      !(db.blocks[b].vehicle == v && Covers(db.blocks[b].first, db.blocks[b].last, d))
  }

  lemma SuitsIff(x: Vehicle, q: Query)
    ensures Suits(x, q) <==> x.status == Active && x.online && Wanted(x.listing, q)
  {
    if q.vehicleType.Some? {
      SameLettersIff(q.vehicleType.value, "all");
      assert Lower("all") == "all";
    }
    if q.color.Some? {
      SameLettersIff(q.color.value, x.listing.color);
    }
  }

  lemma NeverBlockedIff(db: Db, v: VehicleId, q: Query, now: Time)
    requires ValidDb(db) && q.first.GetOr(DayOf(now)) <= q.last.GetOr(DayOf(now))
    requires v in db.vehicles && db.vehicles[v].status == Active && db.vehicles[v].online
    ensures FreeKey(db, KeyFor(v, q, now)) <==> NeverBlocked(db, v, q, now)
  {
    var first, last := q.first.GetOr(DayOf(now)), q.last.GetOr(DayOf(now));
    FreeDayByDay(db, v, first, last);
    if NeverBlocked(db, v, q, now) {
      forall d | first <= d <= last ensures Free(db, v, d, d) {
        assert forall b <- db.blocks ::
            Overlaps(db.blocks[b], v, d, d) ==> Covers(db.blocks[b].first, db.blocks[b].last, d);
      }
    } else {
      var d, b :| first <= d <= last && b in db.blocks
        && db.blocks[b].vehicle == v && Covers(db.blocks[b].first, db.blocks[b].last, d);
      assert Overlaps(db.blocks[b], v, d, d);
      assert !Free(db, v, d, d);
    }
  }

  lemma ListedIff(db: Db, q: Query, now: Time, v: VehicleId)
    requires ValidDb(db) && q.first.GetOr(DayOf(now)) <= q.last.GetOr(DayOf(now))
    ensures v in Uncached(db, q, now) <==>
            v in db.vehicles && Suits(db.vehicles[v], q) && NeverBlocked(db, v, q, now)
  {
    if v in db.vehicles {
      SuitsIff(db.vehicles[v], q);
      if Suits(db.vehicles[v], q) {
        NeverBlockedIff(db, v, q, now);
      }
    }
  }

  /**
   After any run with working invalidation a search for given days, first to last, answers exactly the
   vehicles that suit every given criterion and are blocked on none of the days, with their own rows.
   */
  lemma SearchListsIff(ws: seq<World>, es: seq<Step>, q: Query, now: Time, io: SearchIO, v: VehicleId)
    requires IsRun(ws, es) && (forall e <- es :: Clean(e))
    requires q.first.Some? && q.last.Some? && q.first.value <= q.last.value
    ensures
      var db, rows := ws[|es|].db, Found(ws[|es|], q, now, io);
      && (v in rows <==> v in db.vehicles && Suits(db.vehicles[v], q) && NeverBlocked(db, v, q, now))
      && (v in rows ==> rows[v].(tariff := db.vehicles[v].tariff, plate := db.vehicles[v].plate) == db.vehicles[v])
  {
    RunKeepsValid(ws, es, |es|);
    SearchRefinesTheTables(ws, es, q, now, io);
    ListedIff(ws[|es|].db, q, now, v);
  }

  // ---------------------------------------------------------------------------
  // Related searches
  // ---------------------------------------------------------------------------

  /** With and without AC are a partition of a search that does not ask. */
  lemma AcSplitsTheSearch(db: Db, q: Query, now: Time)
    ensures
      var yes, no := Uncached(db, q.(ac := Some(true)), now), Uncached(db, q.(ac := Some(false)), now);
      yes + no == Uncached(db, q.(ac := None), now) && yes !! no
  {
  }

  /** Asking for more seats never adds a vehicle; asking for none is not asking. */
  lemma MoreSeatsFewerVehicles(db: Db, q: Query, now: Time, few: nat, many: nat)
    requires few <= many
    ensures Uncached(db, q.(seats := Some(many)), now) <= Uncached(db, q.(seats := Some(few)), now)
    ensures Uncached(db, q.(seats := Some(0)), now) == Uncached(db, q.(seats := None), now)
  {
  }

  /** Letter case of a colour does not matter. */
  lemma ColorIgnoresCase(db: Db, q: Query, now: Time, c: string, c': string)
    requires SameLetters(c, c')
    ensures Uncached(db, q.(color := Some(c)), now) == Uncached(db, q.(color := Some(c')), now)
  {
    SameLettersIff(c, c');
  }
}
