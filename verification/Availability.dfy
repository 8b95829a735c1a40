/**
 What each catalog operation means for the availability of a vehicle, and when it is allowed: a second
 account of the operations, in terms of who may drive away with which vehicle on which days.
 */
module Availability {
  import opened Wrappers
  import opened Calendar
  import opened Catalog

  predicate Owned(db: Db, v: VehicleId, owner: OwnerId) {
    v in db.vehicles && db.vehicles[v].owner == owner
  }

  /** The registration number is of a live row other than `self`, or of a deleted one. */
  ghost predicate NumberTaken(db: Db, number: string, self: Option<VehicleId>) {
    || number in db.retired
    || exists v <- db.vehicles :: Some(v) != self && db.vehicles[v].registration == number
  }

  /** Who may do what: owners with their own vehicles, the admin with any; blocks need an ACTIVE vehicle and a span. */
  ghost predicate Allowed(db: Db, c: Change) {
    match c
    case Register(owner, form) =>
      if exists v <- db.vehicles :: db.vehicles[v].registration == form.number
      then exists v <- db.vehicles :: db.vehicles[v].registration == form.number && db.vehicles[v].owner == owner
      else form.number !in db.retired
    case Update(id, owner, patch) =>
      && Owned(db, id, owner) && (patch.online == Some(true) ==> db.vehicles[id].status == Active)
      && !NumberTaken(db, patch.registration.GetOr(db.vehicles[id].registration), Some(id))
    case Delete(id, owner) => Owned(db, id, owner)
    case Activate(id) => id in db.vehicles
    case Suspend(id) => id in db.vehicles
    case SetOnline(id, owner, _) => Owned(db, id, owner) && db.vehicles[id].status == Active
    case SetAllOnline(owner, _) => exists v <- db.vehicles :: Owned(db, v, owner)
    case BlockOne(id, owner, start, end, _, _) =>
      Owned(db, id, owner) && db.vehicles[id].status == Active && start < end
    case BlockAll(owner, start, end, _) =>
      (exists v <- db.vehicles :: Owned(db, v, owner) && db.vehicles[v].status == Active) && start < end
    case Unblock(b, owner) => b in db.blocks && Owned(db, db.blocks[b].vehicle, owner)
    case UnblockAll(owner) => exists v <- db.vehicles :: Owned(db, v, owner)
    case SetPlate(id, _) => id in db.vehicles
    case SetPricing(id, _) => id in db.vehicles
  }

  lemma SomeOwned(db: Db, owner: OwnerId)
    ensures OwnedBy(db, owner) != {} <==> exists v <- db.vehicles :: Owned(db, v, owner)
    ensures ActiveOf(db, owner) != {} <==>
            exists v <- db.vehicles :: Owned(db, v, owner) && db.vehicles[v].status == Active
  {
    forall v <- db.vehicles | Owned(db, v, owner)
      ensures v in OwnedBy(db, owner) && (db.vehicles[v].status == Active ==> v in ActiveOf(db, owner)) {}
  }

  /** An operation goes through exactly when it is allowed. */
  lemma AllowedIff(db: Db, c: Change)
    requires ValidDb(db)
    ensures Mutate(db, c).Ok? <==> Allowed(db, c)
  {
    if c.SetAllOnline? || c.BlockAll? || c.UnblockAll? {
      SomeOwned(db, c.owner);
    }
  }

  // ---------------------------------------------------------------------------
  // Who is offered, and when blocked
  // ---------------------------------------------------------------------------

  /** The status the operation gives a vehicle, if any. */
  function StatusGiven(c: Change, v: VehicleId): Option<Status> {
    match c
    case Update(id, _, patch) => if id == v then patch.status else None
    case Activate(id) => if id == v then Some(Active) else None
    case Suspend(id) => if id == v then Some(Suspended) else None
    case _ => None
  }

  /** Whether it puts the vehicle online or offline, if either. Only ACTIVE ones go online all together. */
  function OnlineGiven(db: Db, c: Change, v: VehicleId): Option<bool>
    requires v in db.vehicles
  {
    match c
    case Register(_, form) => if db.vehicles[v].registration == form.number then form.online else None
    case Update(id, _, patch) => if id == v then patch.online else None
    case Activate(id) => if id == v then Some(true) else None
    case Suspend(id) => if id == v then Some(false) else None
    case SetOnline(id, _, online) => if id == v then Some(online) else None
    case SetAllOnline(owner, online) =>
      if Owned(db, v, owner) && (online ==> db.vehicles[v].status == Active) then Some(online) else None
    case _ => None
  }

  /** Whether the vehicle is ACTIVE and online after the operation. */
  ghost predicate OfferedAfter(db: Db, c: Change, v: VehicleId) {
    && v in db.vehicles && !(c.Delete? && c.id == v)
    && StatusGiven(c, v).GetOr(db.vehicles[v].status) == Active
    && OnlineGiven(db, c, v).GetOr(db.vehicles[v].online)
  }

  /** The value given, or else the one there was. */
  predicate Takes<T(==)>(given: Option<T>, was: T, now: T) {
    now == if given.Some? then given.value else was
  }

  /** Vehicles go only by being deleted; status and online flag change only by the operations that give them. */
  lemma StandingAfter(db: Db, c: Change, v: VehicleId)
    requires ValidDb(db) && Mutate(db, c).Ok? && v in db.vehicles
    ensures v in Mutate(db, c).value.vehicles <==> !(c.Delete? && c.id == v)
    ensures v in Mutate(db, c).value.vehicles ==>
              && Takes(StatusGiven(c, v), db.vehicles[v].status, Mutate(db, c).value.vehicles[v].status)
              && Takes(OnlineGiven(db, c, v), db.vehicles[v].online, Mutate(db, c).value.vehicles[v].online)
  {
  }

  lemma NewAreNotOffered(db: Db, c: Change, v: VehicleId)
    requires ValidDb(db) && Mutate(db, c).Ok? && v !in db.vehicles
    ensures !Offered(Mutate(db, c).value, v)
  {
  }

  lemma OfferedAfterIff(db: Db, c: Change, v: VehicleId)
    requires ValidDb(db) && Mutate(db, c).Ok?
    ensures Offered(Mutate(db, c).value, v) <==> OfferedAfter(db, c, v)
  {
    if v in db.vehicles {
      StandingAfter(db, c, v);
    } else {
      NewAreNotOffered(db, c, v);
    }
  }

  /** The operation blocks the vehicle from the one day to the other. */
  predicate BlocksOn(db: Db, c: Change, v: VehicleId, d: Day) {
    match c
    case BlockOne(id, _, start, end, _, _) => id == v && DayOf(start) <= d <= DayOf(end)
    case BlockAll(owner, start, end, _) =>
      Owned(db, v, owner) && db.vehicles[v].status == Active && DayOf(start) <= d <= DayOf(end)
    case _ => false
  }

  /** The operation removes this block. */
  predicate Removes(db: Db, c: Change, b: BlockId)
    requires b in db.blocks
  {
    match c
    case Unblock(gone, _) => gone == b
    case UnblockAll(owner) => Owned(db, db.blocks[b].vehicle, owner) && db.blocks[b].reason == OwnerBlocked
    case _ => false
  }

  /** This block covers the day for the vehicle, and the operation leaves it. */
  predicate StaysOn(db: Db, c: Change, b: BlockId, v: VehicleId, d: Day)
    requires b in db.blocks
  {
    db.blocks[b].vehicle == v && db.blocks[b].first <= d <= db.blocks[b].last && !Removes(db, c, b)
  }

  /** Some block that the operation leaves covers the day for the vehicle, or one that it makes. */
  predicate BlockedAfter(db: Db, c: Change, v: VehicleId, d: Day) {
    BlocksOn(db, c, v, d) || exists b <- db.blocks :: StaysOn(db, c, b, v, d)
  }

  predicate BlockedOn(db: Db, v: VehicleId, d: Day) {
    exists b <- db.blocks :: Overlaps(db.blocks[b], v, d, d)
  }

  lemma AddedBlocksIff(
    db: Db, vs: set<VehicleId>, start: Time, end: Time, reason: Reason, booking: Option<nat>, v: VehicleId, d: Day)
    requires ValidDb(db)
    ensures BlockedOn(AddBlocks(db, vs, start, end, reason, booking), v, d) <==>
            BlockedOn(db, v, d) || (v in vs && DayOf(start) <= d <= DayOf(end))
  {
    var after := AddBlocks(db, vs, start, end, reason, booking);
    forall b <- db.blocks ensures b in after.blocks && after.blocks[b] == db.blocks[b] {}
    if v in vs {
      assert BlockId(db.nextBatch, v) in after.blocks;
    }
  }

  lemma KeptBlocksIff(db: Db, after: Db, c: Change, v: VehicleId, d: Day)
    requires forall b :: b in after.blocks <==> b in db.blocks && !Removes(db, c, b)
    requires forall b <- after.blocks :: after.blocks[b] == db.blocks[b]
    ensures BlockedOn(after, v, d) <==> exists b <- db.blocks :: StaysOn(db, c, b, v, d)
  {
    forall b <- db.blocks ensures StaysOn(db, c, b, v, d) ==> b in after.blocks && Overlaps(after.blocks[b], v, d, d) {}
    forall b <- after.blocks ensures Overlaps(after.blocks[b], v, d, d) ==> b in db.blocks && StaysOn(db, c, b, v, d) {}
  }

  lemma UnblockingIff(db: Db, c: Change, v: VehicleId, d: Day)
    requires (c.Unblock? || c.UnblockAll?) && Mutate(db, c).Ok?
    ensures BlockedOn(Mutate(db, c).value, v, d) <==> BlockedAfter(db, c, v, d)
  {
    KeptBlocksIff(db, Mutate(db, c).value, c, v, d);
  }

  lemma NothingBlockedIff(db: Db, c: Change, v: VehicleId, d: Day)
    requires !ChangesBlocks(c) && Mutate(db, c).Ok?
    ensures BlockedOn(Mutate(db, c).value, v, d) <==> BlockedAfter(db, c, v, d)
  {
    KeptBlocksIff(db, Mutate(db, c).value, c, v, d);
  }

  lemma NothingRemoved(db: Db, c: Change, v: VehicleId, d: Day)
    requires c.BlockOne? || c.BlockAll?
    ensures BlockedAfter(db, c, v, d) <==> BlocksOn(db, c, v, d) || BlockedOn(db, v, d)
  {
    forall b <- db.blocks ensures StaysOn(db, c, b, v, d) <==> Overlaps(db.blocks[b], v, d, d) {}
  }

  lemma BlockingOneIff(db: Db, c: Change, v: VehicleId, d: Day)
    requires ValidDb(db) && c.BlockOne? && Mutate(db, c).Ok?
    ensures BlockedOn(Mutate(db, c).value, v, d) <==> BlockedAfter(db, c, v, d)
  {
    NothingRemoved(db, c, v, d);
    AddedBlocksIff(db, {c.id}, c.start, c.end, c.reason, c.booking, v, d);
  }

  lemma BlockingAllIff(db: Db, c: Change, v: VehicleId, d: Day)
    requires ValidDb(db) && c.BlockAll? && Mutate(db, c).Ok?
    ensures BlockedOn(Mutate(db, c).value, v, d) <==> BlockedAfter(db, c, v, d)
  {
    NothingRemoved(db, c, v, d);
    AddedBlocksIff(db, ActiveOf(db, c.owner), c.start, c.end, c.reason, None, v, d);
  }

  lemma BlockedAfterIff(db: Db, c: Change, v: VehicleId, d: Day)
    requires ValidDb(db) && Mutate(db, c).Ok?
    ensures BlockedOn(Mutate(db, c).value, v, d) <==> BlockedAfter(db, c, v, d)
  {
    if c.BlockOne? {
      BlockingOneIff(db, c, v, d);
    } else if c.BlockAll? {
      BlockingAllIff(db, c, v, d);
    } else if c.Unblock? || c.UnblockAll? {
      UnblockingIff(db, c, v, d);
    } else {
      NothingBlockedIff(db, c, v, d);
    }
  }

  /**
   What every allowed operation makes of availability: afterwards a vehicle is free from one day to another
   exactly when it is then offered and none of the days is then blocked for it.
   */
  lemma FreeAfterIff(db: Db, c: Change, v: VehicleId, first: Day, last: Day)
    requires ValidDb(db) && Allowed(db, c) && first <= last
    ensures Mutate(db, c).Ok?
    ensures Free(Mutate(db, c).value, v, first, last) <==>
            OfferedAfter(db, c, v) && forall d | first <= d <= last :: !BlockedAfter(db, c, v, d)
  {
    AllowedIff(db, c);
    MutateKeepsValid(db, c);
    OfferedAfterIff(db, c, v);
    var after := Mutate(db, c).value;
    FreeDayByDay(after, v, first, last);
    forall d | first <= d <= last ensures BlockedOn(after, v, d) <==> BlockedAfter(db, c, v, d) {
      BlockedAfterIff(db, c, v, d);
    }
    assert forall d | first <= d <= last :: Free(after, v, d, d) <==> Offered(after, v) && !BlockedOn(after, v, d);
  }

  // ---------------------------------------------------------------------------
  // What else is written
  // ---------------------------------------------------------------------------

  /** The vehicles the operation blocks. */
  predicate Target(db: Db, c: Change, v: VehicleId)
    requires c.BlockOne? || c.BlockAll?
  {
    if c.BlockOne? then v == c.id else Owned(db, v, c.owner) && db.vehicles[v].status == Active
  }

  predicate IsNew(db: Db, after: Db, b: BlockId) {
    b in after.blocks && b !in db.blocks
  }

  /** Blocking makes one block a vehicle, from the first day to the last, with the reason and booking given. */
  lemma BlocksMade(db: Db, c: Change)
    requires ValidDb(db) && (c.BlockOne? || c.BlockAll?) && Mutate(db, c).Ok?
    ensures
      var after := Mutate(db, c).value;
      && (forall b <- db.blocks :: b in after.blocks && after.blocks[b] == db.blocks[b])
      && (forall b | IsNew(db, after, b) ::
            && Target(db, c, after.blocks[b].vehicle)
            && after.blocks[b].first == DayOf(c.start) && after.blocks[b].last == DayOf(c.end)
            && after.blocks[b].reason == c.reason
            && after.blocks[b].booking == if c.BlockOne? then c.booking else None)
      && (forall v | Target(db, c, v) :: exists b :: IsNew(db, after, b) && after.blocks[b].vehicle == v)
      && forall b, x | IsNew(db, after, b) && IsNew(db, after, x) ::
           after.blocks[b].vehicle == after.blocks[x].vehicle ==> b == x
  {
    var after := Mutate(db, c).value;
    forall v | Target(db, c, v) ensures exists b :: IsNew(db, after, b) && after.blocks[b].vehicle == v {
      assert v in ActiveOf(db, c.owner) || c.BlockOne?;
      assert IsNew(db, after, BlockId(db.nextBatch, v)) && after.blocks[BlockId(db.nextBatch, v)].vehicle == v;
    }
  }

  /** A registration of an unknown number makes a draft row, offline, with default plate and prices. */
  lemma NewRegistration(db: Db, owner: OwnerId, form: Registration)
    requires Mutate(db, Register(owner, form)).Ok?
    requires forall v <- db.vehicles :: db.vehicles[v].registration != form.number
    ensures
      var plate, tariff := Plate(form.plateKind.GetOr("WHITE"), None, None, None), Tariff(0.0, 0.0, 4, 20, "");
      Mutate(db, Register(owner, form)).value.vehicles ==
      db.vehicles[db.nextVehicle := Vehicle(owner, form.number, Draft, false, form.listing, plate, tariff)]
  {
  }

  predicate PlateAfter(c: Change, v: VehicleId, x: Vehicle, y: Vehicle) {
    if c.SetPlate? && c.id == v then
      && y.plate.kind == c.plate.kind
      && y.plate.permitNumber == (if c.plate.permitNumber.Some? then c.plate.permitNumber else x.plate.permitNumber)
      && y.plate.permitKind == (if c.plate.permitKind.Some? then c.plate.permitKind else x.plate.permitKind)
      && y.plate.expiry == (if c.plate.expiry.Some? then c.plate.expiry else x.plate.expiry)
    else if c.Register? && c.form.number == x.registration then
      Takes(c.form.plateKind, x.plate.kind, y.plate.kind) && y.plate.(kind := x.plate.kind) == x.plate
    else y.plate == x.plate
  }

  predicate TariffAfter(c: Change, v: VehicleId, x: Vehicle, y: Vehicle) {
    if c.SetPricing? && c.id == v then
      && Takes(c.tariff.perKm, x.tariff.perKm, y.tariff.perKm)
      && Takes(c.tariff.perHour, x.tariff.perHour, y.tariff.perHour)
      && Takes(c.tariff.minHours, x.tariff.minHours, y.tariff.minHours)
      && Takes(c.tariff.nightPercent, x.tariff.nightPercent, y.tariff.nightPercent)
      && Takes(c.tariff.eventPackage, x.tariff.eventPackage, y.tariff.eventPackage)
    else y.tariff == x.tariff
  }

  /** Owner, number, listing, plate and tariff change only by the operations that give them a value. */
  lemma DetailsAfter(db: Db, c: Change, v: VehicleId)
    requires ValidDb(db) && Mutate(db, c).Ok? && v in db.vehicles && v in Mutate(db, c).value.vehicles
    ensures
      var x, y := db.vehicles[v], Mutate(db, c).value.vehicles[v];
      if c.Update? && c.id == v then
        && Takes(c.patch.owner, x.owner, y.owner) && Takes(c.patch.registration, x.registration, y.registration)
        && Takes(c.patch.listing, x.listing, y.listing) && Takes(c.patch.plate, x.plate, y.plate)
        && Takes(c.patch.tariff, x.tariff, y.tariff)
      else
        && y.owner == x.owner && y.registration == x.registration
        && y.listing == (if c.Register? && c.form.number == x.registration then c.form.listing else x.listing)
        && PlateAfter(c, v, x, y) && TariffAfter(c, v, x, y)
  {
  }
}
