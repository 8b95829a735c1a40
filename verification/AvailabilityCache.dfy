/**
 The two Redis layers over the catalog tables: availability flags kept for 300 s and search results
 kept for 120 s. Proved over all runs: with every invalidation working both layers always agree with
 the tables, and with invalidation failing at will an answer is never older than the timeouts allow.
 */
module AvailabilityCache {
  import opened Wrappers
  import opened Calendar
  import opened Catalog
  import opened Runs
  import opened Text

  const FLAG_TTL: int := 300 * SECOND_MS
  const SEARCH_TTL: int := 120 * SECOND_MS

  datatype FlagKey = FlagKey(vehicle: VehicleId, first: Day, last: Day)
  datatype Flag = Flag(free: bool, expiry: Time)

  /** A search request; `rest` is every field that only tells cache keys apart (destination, time). */
  datatype Query = Query(
    origin: Option<Place>, vehicleType: Option<string>, seats: Option<nat>,
    color: Option<string>, ac: Option<bool>, first: Option<Day>, last: Option<Day>, rest: string)
  datatype Hits = Hits(rows: map<VehicleId, Vehicle>, expiry: Time)

  datatype World = World(db: Db, flags: map<FlagKey, Flag>, hits: map<Query, Hits>)

  /** What a failing clear leaves behind: any set of keys. Nothing is left when Redis works. */
  datatype Leftover = Leftover(flags: set<FlagKey>, queries: set<Query>)

  /** Which Redis calls of a search succeed: its own read and write, and those made per vehicle. */
  datatype SearchIO = SearchIO(readOk: bool, writeOk: bool, flagReads: set<VehicleId>, flagWrites: set<VehicleId>)

  datatype Event =
    | Changing(change: Change, left: Leftover)
    | Asking(key: FlagKey, readOk: bool, writeOk: bool)
    | Searching(query: Query, io: SearchIO)

  type Step = Timed<Event>

  // ---------------------------------------------------------------------------
  // The uncached search
  // ---------------------------------------------------------------------------

  predicate SeatsFit(c: Capacity, seats: nat) {
    if seats <= 5 then true
    else if seats <= 7 then c == SixSeven || c == EightPlus
    else c == EightPlus
  }

  predicate Wanted(l: Listing, q: Query) {
    && (q.origin.Some? ==> q.origin.value in l.reach)
    && (q.vehicleType.Some? && q.vehicleType.value != "" && Lower(q.vehicleType.value) != "all"
        ==> l.category == q.vehicleType.value)
    && (q.seats.Some? && q.seats.value != 0 ==> SeatsFit(l.capacity, q.seats.value))
    && (q.color.Some? && q.color.value != "" ==> Lower(l.color) == Lower(q.color.value))
    && (q.ac.Some? ==> l.hasAC == q.ac.value)
  }

  /** The rows of the search's SQL query, before the date check. */
  function Matches(db: Db, q: Query): set<VehicleId> {
    set v <- db.vehicles | db.vehicles[v].status == Active && db.vehicles[v].online && Wanted(db.vehicles[v].listing, q)
  }

  /** A missing date means today. */
  function KeyFor(v: VehicleId, q: Query, now: Time): FlagKey {
    FlagKey(v, q.first.GetOr(DayOf(now)), q.last.GetOr(DayOf(now)))
  }

  predicate FreeKey(db: Db, k: FlagKey) {
    Free(db, k.vehicle, k.first, k.last)
  }

  /** What a search without any cache returns. */
  function Uncached(db: Db, q: Query, now: Time): set<VehicleId> {
    set v <- Matches(db, q) | FreeKey(db, KeyFor(v, q, now))
  }

  // ---------------------------------------------------------------------------
  // One step of the service
  // ---------------------------------------------------------------------------

  predicate Live(w: World, k: FlagKey, now: Time, readOk: bool) {
    readOk && k in w.flags && now < w.flags[k].expiry
  }

  /** isVehicleAvailable: the flag when there is a live one, otherwise the tables. */
  predicate Answer(w: World, k: FlagKey, now: Time, readOk: bool) {
    if Live(w, k, now, readOk) then w.flags[k].free else FreeKey(w.db, k)
  }

  function FlagsAfterAsk(w: World, k: FlagKey, now: Time, readOk: bool, writeOk: bool): map<FlagKey, Flag> {
    if Live(w, k, now, readOk) || !writeOk then w.flags
    else w.flags[k := Flag(FreeKey(w.db, k), now + FLAG_TTL)]
  }

  predicate HitIsLive(w: World, q: Query, now: Time, io: SearchIO) {
    io.readOk && q in w.hits && now < w.hits[q].expiry
  }

  /** searchVehicles: the cached rows, or the matching rows that isVehicleAvailable lets through. */
  function Found(w: World, q: Query, now: Time, io: SearchIO): map<VehicleId, Vehicle> {
    if HitIsLive(w, q, now, io) then w.hits[q].rows else Searched(w, q, now, io)
  }

  function Searched(w: World, q: Query, now: Time, io: SearchIO): map<VehicleId, Vehicle> {
    RowsAmong(w, q, now, io, Matches(w.db, q))
  }

  function RowsAmong(w: World, q: Query, now: Time, io: SearchIO, vs: set<VehicleId>): map<VehicleId, Vehicle> {
    map v | v in vs && v in w.db.vehicles && Answer(w, KeyFor(v, q, now), now, v in io.flagReads) :: w.db.vehicles[v]
  }

  /** The flags a search writes on the way: one for each vehicle it asks about without a live flag. */
  function FlagsAmong(w: World, q: Query, now: Time, io: SearchIO, vs: set<VehicleId>): map<FlagKey, Flag> {
    map v | v in vs && Writes(w, KeyFor(v, q, now), now, io)
      :: KeyFor(v, q, now) := Flag(FreeKey(w.db, KeyFor(v, q, now)), now + FLAG_TTL)
  }

  predicate Writes(w: World, k: FlagKey, now: Time, io: SearchIO) {
    k.vehicle in io.flagWrites && !Live(w, k, now, k.vehicle in io.flagReads)
  }

  function AfterSearch(w: World, q: Query, now: Time, io: SearchIO): World {
    if HitIsLive(w, q, now, io) then w
    else w.(flags := w.flags + FlagsAmong(w, q, now, io, Matches(w.db, q)),
            hits := if io.writeOk then w.hits[q := Hits(Searched(w, q, now, io), now + SEARCH_TTL)] else w.hits)
  }

  /** clearVehicleCaches for every vehicle of `vs`: all search results and the flags of those vehicles. */
  function Clear(w: World, vs: set<VehicleId>, left: Leftover): World {
    w.(flags := FlagsLeft(w.flags, vs, left), hits := HitsLeft(w.hits, left))
  }

  function FlagsLeft(flags: map<FlagKey, Flag>, vs: set<VehicleId>, left: Leftover): map<FlagKey, Flag> {
    map k | k in flags && (k.vehicle in vs ==> k in left.flags) :: flags[k]
  }

  function HitsLeft(hits: map<Query, Hits>, left: Leftover): map<Query, Hits> {
    map q | q in hits && q in left.queries :: hits[q]
  }

  ghost function AfterChange(w: World, c: Change, left: Leftover): World {
    match Mutate(w.db, c)
    case Err(_) => w
    case Ok(db) => if ClearsCaches(c) then Clear(w.(db := db), Cleared(w.db, c), left) else w.(db := db)
  }

  /** The caller of a change sees the exception it raised, if any. */
  ghost predicate Did(before: World, after: World, c: Change, left: Leftover, failure: Option<Error>) {
    && after == AfterChange(before, c, left)
    && failure == match Mutate(before.db, c) case Ok(_) => None case Err(e) => Some(e)
  }

  ghost function Apply(w: World, e: Step): World {
    match e.event
    case Changing(c, left) => AfterChange(w, c, left)
    case Asking(k, readOk, writeOk) => w.(flags := FlagsAfterAsk(w, k, e.at, readOk, writeOk))
    case Searching(q, io) => AfterSearch(w, q, e.at, io)
  }

  /** A run from empty caches: the state after i events is ws[i], and the clock never goes back. */
  ghost predicate IsRun(ws: seq<World>, es: seq<Step>) {
    && |ws| == |es| + 1
    && ValidDb(ws[0].db) && ws[0].flags == map[] && ws[0].hits == map[]
    && (forall i | 0 <= i < |es| :: ws[i + 1] == Apply(ws[i], es[i]))
    && ClockForward(es)
  }

  lemma {:induction false} RunKeepsValid(ws: seq<World>, es: seq<Step>, n: nat)
    requires IsRun(ws, es) && n <= |es|
    ensures ValidDb(ws[n].db)
  {
    if n > 0 {
      RunKeepsValid(ws, es, n - 1);
      assert ws[n] == Apply(ws[n - 1], es[n - 1]);
      var e := es[n - 1].event;
      if e.Changing? && Mutate(ws[n - 1].db, e.change).Ok? {
        MutateKeepsValid(ws[n - 1].db, e.change);
      }
    }
  }

  // ---------------------------------------------------------------------------
  // Working invalidation: both layers always agree with the tables
  // ---------------------------------------------------------------------------

  /** Cached rows may be behind the table only in the columns setPricing and updatePlateType write. */
  predicate SameButTariffAndPlate(a: Vehicle, b: Vehicle) {
    a.(tariff := b.tariff, plate := b.plate) == b
  }

  ghost predicate FlagsExact(w: World) {
    forall k <- w.flags :: w.flags[k].free == FreeKey(w.db, k)
  }

  /** Each cached search lists what an uncached one for the same dates lists now. */
  ghost predicate HitsExact(w: World) {
    forall q <- w.hits :: RowsExact(w.db, q, w.hits[q].expiry - SEARCH_TTL, w.hits[q].rows)
  }

  ghost predicate RowsExact(db: Db, q: Query, now: Time, rows: map<VehicleId, Vehicle>) {
    && rows.Keys == Uncached(db, q, now)
    && forall v <- rows :: SameButTariffAndPlate(rows[v], db.vehicles[v])
  }

  predicate Clean(e: Step) {
    e.event.Changing? ==> e.event.left == Leftover({}, {})
  }

  lemma FlagsStayExact(w: World, e: Step)
    requires ValidDb(w.db) && FlagsExact(w) && Clean(e)
    ensures FlagsExact(Apply(w, e))
  {
    if e.event.Changing? && Mutate(w.db, e.event.change).Ok? {
      var c := e.event.change;
      var w' := Apply(w, e);
      forall k <- w'.flags ensures w'.flags[k].free == FreeKey(w'.db, k) {
        assert k.vehicle !in Cleared(w.db, c);
        ChangeIsLocal(w.db, c, k.vehicle, k.first, k.last);
      }
    }
  }

  /** setPricing and updatePlateType leave what a search matches, and what is free, as it was. */
  lemma UnclearedChangeKeepsMembership(db: Db, c: Change, q: Query, now: Time)
    requires Mutate(db, c).Ok? && !ClearsCaches(c)
    ensures Uncached(Mutate(db, c).value, q, now) == Uncached(db, q, now)
    ensures forall v <- db.vehicles ::
              && v in Mutate(db, c).value.vehicles
              && SameButTariffAndPlate(db.vehicles[v], Mutate(db, c).value.vehicles[v])
  {
  }

  lemma UnclearedChangeKeepsRowsExact(db: Db, c: Change, q: Query, now: Time, rows: map<VehicleId, Vehicle>)
    requires Mutate(db, c).Ok? && !ClearsCaches(c) && RowsExact(db, q, now, rows)
    ensures RowsExact(Mutate(db, c).value, q, now, rows)
  {
    UnclearedChangeKeepsMembership(db, c, q, now);
  }

  lemma ChangeKeepsHitsExact(w: World, c: Change, left: Leftover)
    requires HitsExact(w) && left == Leftover({}, {})
    ensures HitsExact(AfterChange(w, c, left))
  {
    if Mutate(w.db, c).Ok? {
      if !ClearsCaches(c) {
        forall q <- w.hits ensures RowsExact(Mutate(w.db, c).value, q, w.hits[q].expiry - SEARCH_TTL, w.hits[q].rows) {
          UnclearedChangeKeepsRowsExact(w.db, c, q, w.hits[q].expiry - SEARCH_TTL, w.hits[q].rows);
        }
      }
    }
  }

  lemma SearchedIsExact(w: World, q: Query, now: Time, io: SearchIO)
    requires FlagsExact(w)
    ensures RowsExact(w.db, q, now, Searched(w, q, now, io))
  {
  }

  lemma SearchKeepsHitsExact(w: World, q: Query, now: Time, io: SearchIO)
    requires FlagsExact(w) && HitsExact(w)
    ensures HitsExact(AfterSearch(w, q, now, io))
  {
    if !HitIsLive(w, q, now, io) {
      SearchedIsExact(w, q, now, io);
      OneMoreHit(w, AfterSearch(w, q, now, io), q, Hits(Searched(w, q, now, io), now + SEARCH_TTL));
    }
  }

  lemma OneMoreHit(w: World, after: World, q: Query, h: Hits)
    requires HitsExact(w) && RowsExact(w.db, q, h.expiry - SEARCH_TTL, h.rows)
    requires after.db == w.db && (after.hits == w.hits || after.hits == w.hits[q := h])
    ensures HitsExact(after)
  {
  }

  lemma HitsStayExact(w: World, e: Step)
    requires FlagsExact(w) && HitsExact(w) && Clean(e)
    ensures HitsExact(Apply(w, e))
  {
    match e.event
    case Changing(c, left) => ChangeKeepsHitsExact(w, c, left);
    case Asking(_, _, _) =>
    case Searching(q, io) => SearchKeepsHitsExact(w, q, e.at, io);
  }

  /** In every state reached with working invalidation, every cache entry equals the recomputed value. */
  lemma {:induction false} CachesAlwaysExact(ws: seq<World>, es: seq<Step>, n: nat)
    requires IsRun(ws, es) && n <= |es|
    requires forall e <- es :: Clean(e)
    ensures FlagsExact(ws[n]) && HitsExact(ws[n])
  {
    if n > 0 {
      CachesAlwaysExact(ws, es, n - 1);
      RunKeepsValid(ws, es, n - 1);
      assert ws[n] == Apply(ws[n - 1], es[n - 1]);
      FlagsStayExact(ws[n - 1], es[n - 1]);
      HitsStayExact(ws[n - 1], es[n - 1]);
    }
  }

  /**
   Refinement: after any run with working invalidation, whichever Redis reads fail, isVehicleAvailable
   answers what the tables say.
   */
  lemma AnswerRefinesTheTables(ws: seq<World>, es: seq<Step>, k: FlagKey, now: Time, readOk: bool)
    requires IsRun(ws, es) && forall e <- es :: Clean(e)
    ensures Answer(ws[|es|], k, now, readOk) == FreeKey(ws[|es|].db, k)
  {
    CachesAlwaysExact(ws, es, |es|);
  }

  /** Likewise a search for given dates lists exactly what the uncached search lists. */
  lemma SearchRefinesTheTables(ws: seq<World>, es: seq<Step>, q: Query, now: Time, io: SearchIO)
    requires IsRun(ws, es) && forall e <- es :: Clean(e)
    requires q.first.Some? && q.last.Some?
    ensures RowsExact(ws[|es|].db, q, now, Found(ws[|es|], q, now, io))
  {
    CachesAlwaysExact(ws, es, |es|);
    var w := ws[|es|];
    if HitIsLive(w, q, now, io) {
      assert RowsExact(w.db, q, w.hits[q].expiry - SEARCH_TTL, w.hits[q].rows);
      assert Uncached(w.db, q, now) == Uncached(w.db, q, w.hits[q].expiry - SEARCH_TTL);
    } else {
      SearchedIsExact(w, q, now, io);
    }
  }

  // ---------------------------------------------------------------------------
  // Failing invalidation: bounded staleness
  // ---------------------------------------------------------------------------

  /** The tables gave this answer at instant c of the run. */
  ghost predicate TrueAt(ws: seq<World>, es: seq<Step>, k: FlagKey, free: bool, c: Time)
    requires |ws| == |es| + 1
  {
    exists j :: InForce(es, j, c) && FreeKey(ws[j].db, k) == free
  }

  /** The tables gave this answer at some instant of the last 300 s before c. */
  ghost predicate RecentlyTrue(ws: seq<World>, es: seq<Step>, k: FlagKey, free: bool, c: Time)
    requires |ws| == |es| + 1
  {
    exists d :: c - FLAG_TTL < d <= c && TrueAt(ws, es, k, free, d)
  }

  /**
   The rows were the search result at instant c: filtered from the rows of that instant by
   availability answers each at most 300 s old.
   */
  ghost predicate SearchedAt(ws: seq<World>, es: seq<Step>, q: Query, rows: map<VehicleId, Vehicle>, c: Time)
    requires |ws| == |es| + 1
  {
    exists j :: InForce(es, j, c) && SearchedFrom(ws, es, ws[j].db, q, rows, c)
  }

  ghost predicate SearchedFrom(ws: seq<World>, es: seq<Step>, db: Db, q: Query, rows: map<VehicleId, Vehicle>, c: Time)
    requires |ws| == |es| + 1
  {
    && rows.Keys <= Matches(db, q)
    && (forall v <- rows :: rows[v] == db.vehicles[v])
    && (forall v <- Matches(db, q) :: RecentlyTrue(ws, es, KeyFor(v, q, c), v in rows, c))
  }

  /** After n events no entry is younger than the clock, and each was right when it was computed. */
  ghost predicate EntriesWitnessed(ws: seq<World>, es: seq<Step>, n: nat)
    requires |ws| == |es| + 1 && n <= |es|
  {
    && (forall k <- ws[n].flags :: FlagWitnessed(ws, es, n, k, ws[n].flags[k]))
    && (forall q <- ws[n].hits :: HitsWitnessed(ws, es, n, q, ws[n].hits[q]))
  }

  ghost predicate FlagWitnessed(ws: seq<World>, es: seq<Step>, n: nat, k: FlagKey, f: Flag)
    requires |ws| == |es| + 1 && n <= |es|
  {
    n > 0 && f.expiry - FLAG_TTL <= es[n - 1].at && TrueAt(ws, es, k, f.free, f.expiry - FLAG_TTL)
  }

  ghost predicate HitsWitnessed(ws: seq<World>, es: seq<Step>, n: nat, q: Query, h: Hits)
    requires |ws| == |es| + 1 && n <= |es|
  {
    n > 0 && h.expiry - SEARCH_TTL <= es[n - 1].at && SearchedAt(ws, es, q, h.rows, h.expiry - SEARCH_TTL)
  }

  /** An availability answer given at time t after n events. */
  lemma AnswerWitnessed(ws: seq<World>, es: seq<Step>, n: nat, k: FlagKey, t: Time, readOk: bool)
    requires IsRun(ws, es) && n <= |es| && EntriesWitnessed(ws, es, n) && InForce(es, n, t)
    ensures RecentlyTrue(ws, es, k, Answer(ws[n], k, t, readOk), t)
  {
    if Live(ws[n], k, t, readOk) {
      var d := ws[n].flags[k].expiry - FLAG_TTL;
      assert t - FLAG_TTL < d <= t && TrueAt(ws, es, k, ws[n].flags[k].free, d);
    } else {
      assert TrueAt(ws, es, k, FreeKey(ws[n].db, k), t);
    }
  }

  lemma SearchWitnessed(ws: seq<World>, es: seq<Step>, n: nat, q: Query, t: Time, io: SearchIO)
    requires IsRun(ws, es) && n <= |es| && EntriesWitnessed(ws, es, n) && InForce(es, n, t)
    ensures SearchedAt(ws, es, q, Searched(ws[n], q, t, io), t)
  {
    var rows := Searched(ws[n], q, t, io);
    forall v <- Matches(ws[n].db, q) ensures RecentlyTrue(ws, es, KeyFor(v, q, t), v in rows, t) {
      AnswerWitnessed(ws, es, n, KeyFor(v, q, t), t, v in io.flagReads);
    }
    assert SearchedFrom(ws, es, ws[n].db, q, rows, t);
  }

  /** A step keeps flags or writes right ones. */
  lemma FlagsAfterStep(w: World, e: Step, k: FlagKey)
    requires k in Apply(w, e).flags
    ensures
      || (k in w.flags && Apply(w, e).flags[k] == w.flags[k])
      || Apply(w, e).flags[k] == Flag(FreeKey(w.db, k), e.at + FLAG_TTL)
  {
  }

  /** A step keeps search results or writes the ones just computed. */
  lemma HitsAfterStep(w: World, e: Step, q: Query)
    requires q in Apply(w, e).hits
    ensures
      || (q in w.hits && Apply(w, e).hits[q] == w.hits[q])
      || (e.event.Searching? && Apply(w, e).hits[q] == Hits(Searched(w, q, e.at, e.event.io), e.at + SEARCH_TTL))
  {
  }

  lemma FlagsStepWitnessed(ws: seq<World>, es: seq<Step>, n: nat, k: FlagKey)
    requires IsRun(ws, es) && 0 < n <= |es| && EntriesWitnessed(ws, es, n - 1) && InForce(es, n - 1, es[n - 1].at)
    requires k in ws[n].flags
    ensures FlagWitnessed(ws, es, n, k, ws[n].flags[k])
  {
    var w, e := ws[n - 1], es[n - 1];
    assert ws[n] == Apply(w, e);
    FlagsAfterStep(w, e, k);
    if k in w.flags && ws[n].flags[k] == w.flags[k] {
      assert FlagWitnessed(ws, es, n - 1, k, w.flags[k]);
    } else {
      assert TrueAt(ws, es, k, FreeKey(w.db, k), e.at);
    }
  }

  lemma HitsStillWitnessed(ws: seq<World>, es: seq<Step>, n: nat, q: Query, h: Hits)
    requires |ws| == |es| + 1 && 1 < n <= |es| && HitsWitnessed(ws, es, n - 1, q, h) && es[n - 2].at <= es[n - 1].at
    ensures HitsWitnessed(ws, es, n, q, h)
  {
  }

  lemma NewHitsWitnessed(ws: seq<World>, es: seq<Step>, n: nat, q: Query, h: Hits, io: SearchIO)
    requires IsRun(ws, es) && 0 < n <= |es| && EntriesWitnessed(ws, es, n - 1) && InForce(es, n - 1, es[n - 1].at)
    requires h == Hits(Searched(ws[n - 1], q, es[n - 1].at, io), es[n - 1].at + SEARCH_TTL)
    ensures HitsWitnessed(ws, es, n, q, h)
  {
    SearchWitnessed(ws, es, n - 1, q, es[n - 1].at, io);
  }

  /** The hits of step n are as they were, or as just computed. */
  lemma HitsInRun(ws: seq<World>, es: seq<Step>, n: nat, q: Query)
    requires IsRun(ws, es) && 0 < n <= |es| && q in ws[n].hits
    ensures
      || (q in ws[n - 1].hits && ws[n].hits[q] == ws[n - 1].hits[q])
      || (es[n - 1].event.Searching?
          && ws[n].hits[q] == Hits(Searched(ws[n - 1], q, es[n - 1].at, es[n - 1].event.io), es[n - 1].at + SEARCH_TTL))
  {
    assert ws[n] == Apply(ws[n - 1], es[n - 1]);
    HitsAfterStep(ws[n - 1], es[n - 1], q);
  }

  lemma HitsStepWitnessed(ws: seq<World>, es: seq<Step>, n: nat, q: Query)
    requires IsRun(ws, es) && 0 < n <= |es| && EntriesWitnessed(ws, es, n - 1) && InForce(es, n - 1, es[n - 1].at)
    requires q in ws[n].hits
    ensures HitsWitnessed(ws, es, n, q, ws[n].hits[q])
  {
    HitsInRun(ws, es, n, q);
    var h := ws[n].hits[q];
    if q in ws[n - 1].hits && h == ws[n - 1].hits[q] {
      HitsStillWitnessed(ws, es, n, q, h);
    } else {
      NewHitsWitnessed(ws, es, n, q, h, es[n - 1].event.io);
    }
  }

  lemma {:induction false} EntriesAlwaysWitnessed(ws: seq<World>, es: seq<Step>, n: nat)
    requires IsRun(ws, es) && n <= |es|
    ensures EntriesWitnessed(ws, es, n)
  {
    if n > 0 {
      EntriesAlwaysWitnessed(ws, es, n - 1);
      assert InForce(es, n - 1, es[n - 1].at);
      forall k <- ws[n].flags ensures FlagWitnessed(ws, es, n, k, ws[n].flags[k]) {
        FlagsStepWitnessed(ws, es, n, k);
      }
      forall q <- ws[n].hits ensures HitsWitnessed(ws, es, n, q, ws[n].hits[q]) {
        HitsStepWitnessed(ws, es, n, q);
      }
    }
  }

  /** The search result of some instant of the last 120 s before t. */
  ghost predicate SearchedRecently(ws: seq<World>, es: seq<Step>, q: Query, rows: map<VehicleId, Vehicle>, t: Time)
    requires |ws| == |es| + 1
  {
    exists c :: t - SEARCH_TTL < c <= t && SearchedAt(ws, es, q, rows, c)
  }

  /**
   Bounded staleness, whatever Redis loses or keeps: an isVehicleAvailable answer at time t is the
   answer of the tables at some instant of the last 300 s.
   */
  lemma AnswerIsBoundedStale(ws: seq<World>, es: seq<Step>, t: Time, k: FlagKey, readOk: bool)
    requires IsRun(ws, es) && (|es| > 0 ==> es[|es| - 1].at <= t)
    ensures RecentlyTrue(ws, es, k, Answer(ws[|es|], k, t, readOk), t)
  {
    EntriesAlwaysWitnessed(ws, es, |es|);
    AnswerWitnessed(ws, es, |es|, k, t, readOk);
  }

  /**
   Likewise a search answer is the result of some instant c of the last 120 s, made from availability
   of the 300 s before c, and so of the last 420 s.
   */
  lemma SearchIsBoundedStale(ws: seq<World>, es: seq<Step>, t: Time, q: Query, io: SearchIO)
    requires IsRun(ws, es) && (|es| > 0 ==> es[|es| - 1].at <= t)
    ensures SearchedRecently(ws, es, q, Found(ws[|es|], q, t, io), t)
  {
    EntriesAlwaysWitnessed(ws, es, |es|);
    if HitIsLive(ws[|es|], q, t, io) {
      assert HitsWitnessed(ws, es, |es|, q, ws[|es|].hits[q]);
    } else {
      SearchWitnessed(ws, es, |es|, q, t, io);
    }
  }

  // ---------------------------------------------------------------------------
  // What the layers keep
  // ---------------------------------------------------------------------------

  /** An answer computed and written at t is given again, without the tables, for 300 s and no longer. */
  lemma AnswerIsKept(w: World, k: FlagKey, t: Time, t': Time, readOk: bool)
    requires !Live(w, k, t, readOk)
    ensures
      var after := Apply(w, Timed(t, Asking(k, readOk, true)));
      && (Live(after, k, t', true) <==> t' < t + 300_000)
      && (t' < t + 300_000 ==> Answer(after, k, t', true) == Answer(w, k, t, readOk))
      && forall other | other != k :: Live(after, other, t', true) == Live(w, other, t', true)
  {
  }

  /** And a search result for 120 s. */
  lemma ResultIsKept(w: World, q: Query, t: Time, t': Time, io: SearchIO, io': SearchIO)
    requires !HitIsLive(w, q, t, io) && io.writeOk && io'.readOk
    ensures
      var after := Apply(w, Timed(t, Searching(q, io)));
      && (HitIsLive(after, q, t', io') <==> t' < t + 120_000)
      && (t' < t + 120_000 ==> Found(after, q, t', io') == Found(w, q, t, io))
  {
  }
}
