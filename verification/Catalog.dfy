/**
 The vehicle and block tables of the catalog, and what each catalog operation does to them.
 Caches are added on top in AvailabilityCache.
 */
module Catalog {
  import opened Wrappers
  import opened Calendar

  type VehicleId = nat
  type OwnerId = nat
  type Place = nat

  datatype Status = Draft | Pending | Active | Rejected | Suspended
  datatype Reason = Booked | Maintenance | OwnerBlocked | Other
  datatype Capacity = FourFive | SixSeven | EightPlus

  /** The columns a search filters on. `reach` stands for the pickup points within the service radius of the home. */
  datatype Listing = Listing(category: string, capacity: Capacity, color: string, hasAC: bool, reach: set<Place>)
  datatype Plate = Plate(kind: string, permitNumber: Option<string>, permitKind: Option<string>, expiry: Option<Day>)
  datatype Tariff = Tariff(perKm: real, perHour: real, minHours: int, nightPercent: int, eventPackage: string)

  datatype Vehicle = Vehicle(
    owner: OwnerId, registration: string, status: Status, online: bool,
    listing: Listing, plate: Plate, tariff: Tariff)

  /** Block ids are fresh on insertion: a batch number, and the vehicle within the batch. */
  datatype BlockId = BlockId(batch: nat, of: VehicleId)
  datatype Block = Block(vehicle: VehicleId, first: Day, last: Day, reason: Reason, booking: Option<nat>)

  /** `retired` holds the registrations of soft-deleted rows, which still occupy the unique index. */
  datatype Db = Db(
    vehicles: map<VehicleId, Vehicle>, blocks: map<BlockId, Block>,
    retired: set<string>, nextVehicle: nat, nextBatch: nat)

  datatype Error = NotFound | Forbidden | BadRequest | Conflict | Crash

  datatype Registration = Registration(
    number: string, listing: Listing, plateKind: Option<string>, online: Option<bool>)
  datatype Patch = Patch(
    owner: Option<OwnerId>, registration: Option<string>, status: Option<Status>, online: Option<bool>,
    listing: Option<Listing>, plate: Option<Plate>, tariff: Option<Tariff>)
  datatype PlatePatch = PlatePatch(
    kind: string, permitNumber: Option<string>, permitKind: Option<string>, expiry: Option<Day>)
  datatype TariffPatch = TariffPatch(
    perKm: Option<real>, perHour: Option<real>, minHours: Option<int>,
    nightPercent: Option<int>, eventPackage: Option<string>)

  datatype Change =
    | Register(owner: OwnerId, form: Registration)
    | Update(id: VehicleId, owner: OwnerId, patch: Patch)
    | Delete(id: VehicleId, owner: OwnerId)
    | Activate(id: VehicleId)
    | Suspend(id: VehicleId)
    | SetOnline(id: VehicleId, owner: OwnerId, online: bool)
    | SetAllOnline(owner: OwnerId, online: bool)
    | BlockOne(id: VehicleId, owner: OwnerId, start: Time, end: Time, reason: Reason, booking: Option<nat>)
    | BlockAll(owner: OwnerId, start: Time, end: Time, reason: Reason)
    | Unblock(block: BlockId, owner: OwnerId)
    | UnblockAll(owner: OwnerId)
    | SetPlate(id: VehicleId, plate: PlatePatch)
    | SetPricing(id: VehicleId, tariff: TariffPatch)

  const DEFAULT_PLATE := Plate("WHITE", None, None, None)
  const DEFAULT_TARIFF := Tariff(0.0, 0.0, 4, 20, "")

  // ---------------------------------------------------------------------------
  // What a caller is promised: the uncached availability query
  // ---------------------------------------------------------------------------

  predicate Overlaps(b: Block, v: VehicleId, first: Day, last: Day) {
    b.vehicle == v && b.first <= last && first <= b.last
  }

  /** A vehicle is free for a range when it is ACTIVE, online and no block of its own overlaps the range. */
  predicate Free(db: Db, v: VehicleId, first: Day, last: Day) {
    && v in db.vehicles
    && db.vehicles[v].status == Active
    && db.vehicles[v].online
    && forall b <- db.blocks :: !Overlaps(db.blocks[b], v, first, last)
  }

  predicate ValidBlocks(db: Db) {
    forall b <- db.blocks :: db.blocks[b].first <= db.blocks[b].last
  }

  /** What every reachable state of the tables satisfies. */
  ghost predicate ValidDb(db: Db) {
    && (forall v <- db.vehicles :: v < db.nextVehicle)
    && (forall v, u | v in db.vehicles && u in db.vehicles && v != u ::
          db.vehicles[v].registration != db.vehicles[u].registration)
    && (forall b <- db.blocks :: b.batch < db.nextBatch)
    && ValidBlocks(db)
  }

  // ---------------------------------------------------------------------------
  // The operations on the tables
  // ---------------------------------------------------------------------------

  function OwnedBy(db: Db, owner: OwnerId): set<VehicleId> {
    set v <- db.vehicles | db.vehicles[v].owner == owner
  }

  function ActiveOf(db: Db, owner: OwnerId): set<VehicleId> {
    set v <- OwnedBy(db, owner) | db.vehicles[v].status == Active
  }

  /** The live row that carries a registration number, if any. */
  ghost function Holder(db: Db, number: string): (r: Option<VehicleId>)
    ensures r.Some? ==> r.value in db.vehicles && db.vehicles[r.value].registration == number
    ensures r.None? ==> forall v <- db.vehicles :: db.vehicles[v].registration != number
  {
    if exists v <- db.vehicles :: db.vehicles[v].registration == number then
      var v :| v in db.vehicles && db.vehicles[v].registration == number; Some(v)
    else
      None
  }

  ghost predicate Taken(db: Db, number: string, self: VehicleId) {
    number in db.retired || exists v <- db.vehicles :: v != self && db.vehicles[v].registration == number
  }

  function Registered(v: Vehicle, form: Registration): Vehicle {
    v.(listing := form.listing,
       plate := v.plate.(kind := form.plateKind.GetOr(v.plate.kind)),
       online := form.online.GetOr(v.online))
  }

  function NewVehicle(owner: OwnerId, form: Registration): Vehicle {
    Vehicle(owner, form.number, Draft, false, form.listing,
            DEFAULT_PLATE.(kind := form.plateKind.GetOr("WHITE")), DEFAULT_TARIFF)
  }

  function Patched(v: Vehicle, p: Patch): Vehicle {
    v.(owner := p.owner.GetOr(v.owner),
       registration := p.registration.GetOr(v.registration),
       status := p.status.GetOr(v.status),
       online := p.online.GetOr(v.online),
       listing := p.listing.GetOr(v.listing),
       plate := p.plate.GetOr(v.plate),
       tariff := p.tariff.GetOr(v.tariff))
  }

  function Replated(plate: Plate, p: PlatePatch): Plate {
    Plate(p.kind,
          if p.permitNumber.Some? then p.permitNumber else plate.permitNumber,
          if p.permitKind.Some? then p.permitKind else plate.permitKind,
          if p.expiry.Some? then p.expiry else plate.expiry)
  }

  function Repriced(t: Tariff, p: TariffPatch): Tariff {
    Tariff(p.perKm.GetOr(t.perKm), p.perHour.GetOr(t.perHour), p.minHours.GetOr(t.minHours),
           p.nightPercent.GetOr(t.nightPercent), p.eventPackage.GetOr(t.eventPackage))
  }

  function PutVehicle(db: Db, id: VehicleId, v: Vehicle): Db {
    db.(vehicles := db.vehicles[id := v])
  }

  /** One block per vehicle of `vs`, all in one new batch. */
  function AddBlocks(db: Db, vs: set<VehicleId>, start: Time, end: Time, reason: Reason, booking: Option<nat>): Db {
    db.(blocks := db.blocks + NewBlocks(db.nextBatch, vs, start, end, reason, booking), nextBatch := db.nextBatch + 1)
  }

  function NewBlocks(batch: nat, vs: set<VehicleId>, start: Time, end: Time, reason: Reason, booking: Option<nat>):
    (m: map<BlockId, Block>)
    ensures forall b :: b in m <==> b.batch == batch && b.of in vs
    ensures forall b <- m :: m[b] == Block(b.of, DayOf(start), DayOf(end), reason, booking)
  {
    map v | v in vs :: BlockId(batch, v) := Block(v, DayOf(start), DayOf(end), reason, booking)
  }

  /** updateOwnerVehiclesAvailability: going online touches ACTIVE rows only, going offline all of them. */
  function SwitchedAll(db: Db, owner: OwnerId, online: bool): map<VehicleId, Vehicle> {
    map v <- db.vehicles ::
      if db.vehicles[v].owner == owner && (online ==> db.vehicles[v].status == Active)
      then db.vehicles[v].(online := online) else db.vehicles[v]
  }

  function WithoutOwnerBlocks(db: Db, vs: set<VehicleId>): map<BlockId, Block> {
    map b | b in db.blocks && !(db.blocks[b].vehicle in vs && db.blocks[b].reason == OwnerBlocked) :: db.blocks[b]
  }

  /** The effect of a change on the tables, or the exception that leaves them as they were. */
  ghost function Mutate(db: Db, c: Change): Result<Db, Error> {
    match c
    case Register(owner, form) =>
      (match Holder(db, form.number)
       case Some(id) =>
         if db.vehicles[id].owner != owner then Err(BadRequest)
         else Ok(PutVehicle(db, id, Registered(db.vehicles[id], form)))
       case None =>
         if form.number in db.retired then Err(Conflict)
         else Ok(PutVehicle(db, db.nextVehicle, NewVehicle(owner, form)).(nextVehicle := db.nextVehicle + 1)))
    case Update(id, owner, patch) =>
      if id !in db.vehicles then Err(NotFound)
      else if db.vehicles[id].owner != owner then Err(Forbidden)
      else if patch.online == Some(true) && db.vehicles[id].status != Active then Err(BadRequest)
      else if Taken(db, Patched(db.vehicles[id], patch).registration, id) then Err(Conflict)
      else Ok(PutVehicle(db, id, Patched(db.vehicles[id], patch)))
    case Delete(id, owner) =>
      if id !in db.vehicles then Err(NotFound)
      else if db.vehicles[id].owner != owner then Err(Forbidden)
      else Ok(db.(vehicles := db.vehicles - {id}, retired := db.retired + {db.vehicles[id].registration}))
    case Activate(id) =>
      if id !in db.vehicles then Err(NotFound)
      else Ok(PutVehicle(db, id, db.vehicles[id].(status := Active, online := true)))
    case Suspend(id) =>
      if id !in db.vehicles then Err(NotFound)
      else Ok(PutVehicle(db, id, db.vehicles[id].(status := Suspended, online := false)))
    case SetOnline(id, owner, online) =>
      if id !in db.vehicles then Err(NotFound)
      else if db.vehicles[id].owner != owner then Err(Forbidden)
      else if db.vehicles[id].status != Active then Err(BadRequest)
      else Ok(PutVehicle(db, id, db.vehicles[id].(online := online)))
    case SetAllOnline(owner, online) =>
      if OwnedBy(db, owner) == {} then Err(NotFound)
      else Ok(db.(vehicles := SwitchedAll(db, owner, online)))
    case BlockOne(id, owner, start, end, reason, booking) =>
      if id !in db.vehicles then Err(NotFound)
      else if db.vehicles[id].owner != owner then Err(Forbidden)
      else if db.vehicles[id].status != Active then Err(BadRequest)
      else if start >= end then Err(BadRequest)
      else Ok(AddBlocks(db, {id}, start, end, reason, booking))
    case BlockAll(owner, start, end, reason) =>
      if OwnedBy(db, owner) == {} then Err(NotFound)
      else if ActiveOf(db, owner) == {} then Err(BadRequest)
      else if start >= end then Err(BadRequest)
      else Ok(AddBlocks(db, ActiveOf(db, owner), start, end, reason, None))
    case Unblock(b, owner) =>
      if b !in db.blocks then Err(NotFound)
      else if db.blocks[b].vehicle !in db.vehicles then Err(Crash)
      else if db.vehicles[db.blocks[b].vehicle].owner != owner then Err(Forbidden)
      else Ok(db.(blocks := db.blocks - {b}))
    case UnblockAll(owner) =>
      if OwnedBy(db, owner) == {} then Err(NotFound)
      else Ok(db.(blocks := WithoutOwnerBlocks(db, OwnedBy(db, owner))))
    case SetPlate(id, p) =>
      if id !in db.vehicles then Err(NotFound)
      else Ok(PutVehicle(db, id, db.vehicles[id].(plate := Replated(db.vehicles[id].plate, p))))
    case SetPricing(id, p) =>
      if id !in db.vehicles then Err(NotFound)
      else Ok(PutVehicle(db, id, db.vehicles[id].(tariff := Repriced(db.vehicles[id].tariff, p))))
  }

  /** The vehicles whose availability keys a successful change clears. */
  ghost function Cleared(db: Db, c: Change): set<VehicleId> {
    match c
    case Register(_, form) => var h := Holder(db, form.number); {if h.Some? then h.value else db.nextVehicle}
    case SetAllOnline(owner, _) => OwnedBy(db, owner)
    case BlockAll(owner, _, _, _) => ActiveOf(db, owner)
    case Unblock(b, _) => if b in db.blocks then {db.blocks[b].vehicle} else {}
    case UnblockAll(owner) => OwnedBy(db, owner)
    case SetPlate(_, _) => {}
    case SetPricing(_, _) => {}
    case _ => {c.id}
  }

  /** setPricing and updatePlateType clear no cache at all. */
  predicate ClearsCaches(c: Change) {
    !c.SetPlate? && !c.SetPricing?
  }

  // ---------------------------------------------------------------------------
  // Facts about single changes
  // ---------------------------------------------------------------------------

  predicate ChangesBlocks(c: Change) {
    c.BlockOne? || c.BlockAll? || c.Unblock? || c.UnblockAll?
  }

  lemma BlockChangeKeepsValid(db: Db, c: Change)
    requires ValidDb(db) && ChangesBlocks(c) && Mutate(db, c).Ok?
    ensures ValidDb(Mutate(db, c).value)
  {
    if c.BlockOne? || c.BlockAll? {
      DayOfMonotone(c.start, c.end);
    }
  }

  lemma RegisterKeepsValid(db: Db, owner: OwnerId, form: Registration)
    requires ValidDb(db) && Mutate(db, Register(owner, form)).Ok?
    ensures ValidDb(Mutate(db, Register(owner, form)).value)
  {
  }

  lemma VehicleChangeKeepsValid(db: Db, c: Change)
    requires ValidDb(db) && !ChangesBlocks(c) && Mutate(db, c).Ok?
    ensures ValidDb(Mutate(db, c).value)
  {
    if c.Register? {
      RegisterKeepsValid(db, c.owner, c.form);
    }
  }

  /** Every operation keeps ids fresh, registrations unique and blocks well formed. */
  lemma MutateKeepsValid(db: Db, c: Change)
    requires ValidDb(db) && Mutate(db, c).Ok?
    ensures ValidDb(Mutate(db, c).value)
  {
    if ChangesBlocks(c) {
      BlockChangeKeepsValid(db, c);
    } else {
      VehicleChangeKeepsValid(db, c);
    }
  }

  lemma BlockChangeIsLocal(db: Db, c: Change, v: VehicleId, first: Day, last: Day)
    requires ValidDb(db) && ChangesBlocks(c) && Mutate(db, c).Ok? && v !in Cleared(db, c)
    ensures Free(Mutate(db, c).value, v, first, last) == Free(db, v, first, last)
  {
    match c
    case BlockOne(id, _, start, end, reason, booking) =>
      BlocksElsewhere(db, {id}, start, end, reason, booking, v, first, last);
    case BlockAll(owner, start, end, reason) =>
      BlocksElsewhere(db, ActiveOf(db, owner), start, end, reason, None, v, first, last);
    case Unblock(gone, _) =>
      assert forall b <- db.blocks :: b != gone ==> b in Mutate(db, c).value.blocks;
    case UnblockAll(owner) =>
      UnblockedElsewhere(db, OwnedBy(db, owner), v, first, last);
  }

  /** The availability of a vehicle can change only if its keys are cleared. */
  lemma ChangeIsLocal(db: Db, c: Change, v: VehicleId, first: Day, last: Day)
    requires ValidDb(db) && Mutate(db, c).Ok? && v !in Cleared(db, c)
    ensures Free(Mutate(db, c).value, v, first, last) == Free(db, v, first, last)
  {
    if ChangesBlocks(c) {
      BlockChangeIsLocal(db, c, v, first, last);
    } else {
      assert Mutate(db, c).value.blocks == db.blocks;
    }
  }

  lemma UnblockedElsewhere(db: Db, vs: set<VehicleId>, v: VehicleId, first: Day, last: Day)
    requires v !in vs
    ensures Free(db.(blocks := WithoutOwnerBlocks(db, vs)), v, first, last) == Free(db, v, first, last)
  {
    assert forall b <- db.blocks :: db.blocks[b].vehicle == v ==> b in WithoutOwnerBlocks(db, vs);
  }

  lemma BlocksElsewhere(
    db: Db, vs: set<VehicleId>, start: Time, end: Time, reason: Reason, booking: Option<nat>,
    v: VehicleId, first: Day, last: Day)
    requires ValidDb(db) && v !in vs
    ensures Free(AddBlocks(db, vs, start, end, reason, booking), v, first, last) == Free(db, v, first, last)
  {
  }

  /** With well-formed blocks, a range is free exactly when each of its days is. */
  lemma FreeDayByDay(db: Db, v: VehicleId, first: Day, last: Day)
    requires ValidBlocks(db) && first <= last
    ensures Free(db, v, first, last) <==> forall d | first <= d <= last :: Free(db, v, d, d)
  {
    if !Free(db, v, first, last) && v in db.vehicles && db.vehicles[v].status == Active && db.vehicles[v].online {
      var b :| b in db.blocks && Overlaps(db.blocks[b], v, first, last);
      var d := if db.blocks[b].first < first then first else db.blocks[b].first;
      assert Overlaps(db.blocks[b], v, d, d);
      assert !Free(db, v, d, d);
    } else if !Free(db, v, first, last) {
      assert !Free(db, v, first, first);
    } else {
      forall d | first <= d <= last ensures Free(db, v, d, d) {
        forall b <- db.blocks ensures !Overlaps(db.blocks[b], v, d, d) {
          assert !Overlaps(db.blocks[b], v, first, last);
        }
      }
    }
  }

  predicate Covers(first: Day, last: Day, d: Day) {
    first <= d <= last
  }

  /** The two-comparison overlap test says exactly that some single day lies in both ranges. */
  lemma OverlapIsACommonDay(b: Block, first: Day, last: Day)
    requires b.first <= b.last && first <= last
    ensures Overlaps(b, b.vehicle, first, last) <==> exists d :: Covers(first, last, d) && Covers(b.first, b.last, d)
  {
    var d := if b.first < first then first else b.first;
    if Overlaps(b, b.vehicle, first, last) {
      assert Covers(first, last, d) && Covers(b.first, b.last, d);
    }
  }

  /** Availability of a range is availability of its two parts. */
  lemma FreeSplits(db: Db, v: VehicleId, first: Day, mid: Day, last: Day)
    requires ValidBlocks(db) && first <= mid < last
    ensures Free(db, v, first, last) <==> Free(db, v, first, mid) && Free(db, v, mid + 1, last)
  {
  }

  /** The tables after block-all with the default reason and then unblock-all. */
  ghost function BlockedAndUnblocked(db: Db, owner: OwnerId, start: Time, end: Time): Result<Db, Error> {
    match Mutate(db, BlockAll(owner, start, end, OwnerBlocked))
    case Err(e) => Err(e)
    case Ok(blocked) => Mutate(blocked, UnblockAll(owner))
  }

  lemma UnblockedAll(db: Db, owner: OwnerId)
    requires OwnedBy(db, owner) != {}
    ensures Mutate(db, UnblockAll(owner)) == Ok(db.(blocks := WithoutOwnerBlocks(db, OwnedBy(db, owner))))
  {
  }

  lemma BlockedAndUnblockedTables(db: Db, owner: OwnerId, start: Time, end: Time)
    requires ValidDb(db) && Mutate(db, BlockAll(owner, start, end, OwnerBlocked)).Ok?
    ensures
      var undone := BlockedAndUnblocked(db, owner, start, end);
      && undone.Ok?
      && undone.value.vehicles == db.vehicles
      && undone.value.blocks == WithoutOwnerBlocks(db, OwnedBy(db, owner))
  {
    var db1 := Mutate(db, BlockAll(owner, start, end, OwnerBlocked)).value;
    assert OwnedBy(db1, owner) == OwnedBy(db, owner);
    UnblockedAll(db1, owner);
    NewOwnerBlocksGo(db, ActiveOf(db, owner), OwnedBy(db, owner), start, end);
  }

  /**
   Block-all with the default reason and then unblock-all leaves the blocks that were there, minus the
   owner's earlier OWNER_BLOCKED ones. So all blocks are restored exactly when the owner had none; and
   every answer for a range is restored exactly when each earlier one was idle: on a vehicle that was
   not free anyway, or on days that the remaining blocks cover as well.
   */
  lemma BlockAllThenUnblockAll(db: Db, owner: OwnerId, start: Time, end: Time)
    requires ValidDb(db) && Mutate(db, BlockAll(owner, start, end, OwnerBlocked)).Ok?
    ensures
      var undone := BlockedAndUnblocked(db, owner, start, end);
      && undone.Ok?
      && undone.value.vehicles == db.vehicles
      && undone.value.blocks == WithoutOwnerBlocks(db, OwnedBy(db, owner))
      && (undone.value.blocks == db.blocks <==> NoOwnerBlocks(db, owner))
      && (SameAnswers(undone.value, db) <==> OwnerBlocksAreIdle(db, owner))
  {
    BlockedAndUnblockedTables(db, owner, start, end);
    var undone := BlockedAndUnblocked(db, owner, start, end).value;
    NothingToRemove(db, owner);
    AnswersRestoredIff(db, undone, owner);
  }

  ghost predicate SameAnswers(a: Db, b: Db) {
    forall v, first, last | first <= last :: Free(a, v, first, last) == Free(b, v, first, last)
  }

  predicate IsOwnerBlock(db: Db, b: BlockId, owner: OwnerId) {
    b in db.blocks && db.blocks[b].vehicle in OwnedBy(db, owner) && db.blocks[b].reason == OwnerBlocked
  }

  predicate Offered(db: Db, v: VehicleId) {
    v in db.vehicles && db.vehicles[v].status == Active && db.vehicles[v].online
  }

  /** Some other block of the vehicle, one that unblock-all leaves, covers the day. */
  predicate StillBlocked(db: Db, owner: OwnerId, v: VehicleId, d: Day) {
    exists b <- db.blocks :: !IsOwnerBlock(db, b, owner) && Overlaps(db.blocks[b], v, d, d)
  }

  /** Every OWNER_BLOCKED block of the owner could go unnoticed. */
  ghost predicate OwnerBlocksAreIdle(db: Db, owner: OwnerId) {
    forall b | IsOwnerBlock(db, b, owner) && Offered(db, db.blocks[b].vehicle) ::
      forall d | Covers(db.blocks[b].first, db.blocks[b].last, d) :: StillBlocked(db, owner, db.blocks[b].vehicle, d)
  }

  /** On one day, taking the owner's blocks away frees a vehicle exactly when nothing else blocks it. */
  lemma FreedDay(db: Db, undone: Db, owner: OwnerId, v: VehicleId, d: Day)
    requires undone.vehicles == db.vehicles && undone.blocks == WithoutOwnerBlocks(db, OwnedBy(db, owner))
    ensures Free(undone, v, d, d) <==> Offered(db, v) && !StillBlocked(db, owner, v, d)
    ensures Free(db, v, d, d) ==> Free(undone, v, d, d)
  {
    forall b ensures b in undone.blocks <==> b in db.blocks && !IsOwnerBlock(db, b, owner) {}
  }

  lemma AnswersRestoredIff(db: Db, undone: Db, owner: OwnerId)
    requires ValidBlocks(db)
    requires undone.vehicles == db.vehicles && undone.blocks == WithoutOwnerBlocks(db, OwnedBy(db, owner))
    ensures SameAnswers(undone, db) <==> OwnerBlocksAreIdle(db, owner)
  {
    if OwnerBlocksAreIdle(db, owner) {
      forall v, d ensures Free(undone, v, d, d) == Free(db, v, d, d) {
        IdleDay(db, undone, owner, v, d);
      }
      forall v, first, last | first <= last ensures Free(undone, v, first, last) == Free(db, v, first, last) {
        FreeDayByDay(db, v, first, last);
        FreeDayByDay(undone, v, first, last);
      }
    } else {
      var b, d :| IsOwnerBlock(db, b, owner) && Offered(db, db.blocks[b].vehicle)
        && Covers(db.blocks[b].first, db.blocks[b].last, d) && !StillBlocked(db, owner, db.blocks[b].vehicle, d);
      var v := db.blocks[b].vehicle;
      FreedDay(db, undone, owner, v, d);
      assert Overlaps(db.blocks[b], v, d, d);
      assert Free(undone, v, d, d) != Free(db, v, d, d);
    }
  }

  lemma IdleDay(db: Db, undone: Db, owner: OwnerId, v: VehicleId, d: Day)
    requires undone.vehicles == db.vehicles && undone.blocks == WithoutOwnerBlocks(db, OwnedBy(db, owner))
    requires OwnerBlocksAreIdle(db, owner)
    ensures Free(undone, v, d, d) == Free(db, v, d, d)
  {
    FreedDay(db, undone, owner, v, d);
    assert forall b | IsOwnerBlock(db, b, owner) && Overlaps(db.blocks[b], v, d, d) ::
        Covers(db.blocks[b].first, db.blocks[b].last, d);
  }

  /** The tables that a sequence of operations makes of an empty database, none refused. */
  ghost predicate Makes(dbs: seq<Db>, cs: seq<Change>) {
    && |dbs| == |cs| + 1
    && dbs[0] == Db(map[], map[], {}, 0, 0)
    && forall i | 0 <= i < |cs| :: Mutate(dbs[i], cs[i]) == Ok(dbs[i + 1])
  }

  lemma MakesMore(dbs: seq<Db>, cs: seq<Change>, c: Change, after: Db)
    requires Makes(dbs, cs) && Mutate(dbs[|cs|], c) == Ok(after)
    ensures Makes(dbs + [after], cs + [c])
  {
    var more, all := dbs + [after], cs + [c];
    forall i | 0 <= i < |all| ensures Mutate(more[i], all[i]) == Ok(more[i + 1]) {
      assert more[i] == dbs[i];
      if i < |cs| {
        assert more[i + 1] == dbs[i + 1] && all[i] == cs[i];
      }
    }
  }

  /** A database with one vehicle, number 0 of owner 1, ACTIVE and online. */
  predicate OneCar(db: Db) {
    db.vehicles.Keys == {0} && db.vehicles[0].owner == 1 && Offered(db, 0)
  }

  /** The owner's block of the vehicle on one day. */
  function OwnersDay(d: Day): Block {
    Block(0, d, d, OwnerBlocked, None)
  }

  lemma RegisterAndActivate(form: Registration) returns (dbs: seq<Db>, cs: seq<Change>)
    ensures Makes(dbs, cs) && |cs| == 2
    ensures OneCar(dbs[2]) && dbs[2].blocks == map[] && dbs[2].nextBatch == 0
  {
    var empty := Db(map[], map[], {}, 0, 0);
    var draft := Mutate(empty, Register(1, form)).value;
    var car := Mutate(draft, Activate(0)).value;
    MakesMore([empty], [], Register(1, form), draft);
    MakesMore([empty] + [draft], [] + [Register(1, form)], Activate(0), car);
    dbs, cs := [empty] + [draft] + [car], [] + [Register(1, form)] + [Activate(0)];
  }

  lemma BlockDay(db: Db, d: Day) returns (after: Db)
    requires OneCar(db)
    ensures Mutate(db, BlockAll(1, d * DAY_MS, d * DAY_MS + 1, OwnerBlocked)) == Ok(after) && OneCar(after)
    ensures after.nextBatch == db.nextBatch + 1 && after.blocks == db.blocks[BlockId(db.nextBatch, 0) := OwnersDay(d)]
  {
    assert 0 in OwnedBy(db, 1) && ActiveOf(db, 1) == {0};
    after := AddBlocks(db, {0}, d * DAY_MS, d * DAY_MS + 1, OwnerBlocked, None);
  }

  lemma UnblockCar(db: Db) returns (after: Db)
    requires OneCar(db) && forall b <- db.blocks :: db.blocks[b].reason == OwnerBlocked && db.blocks[b].vehicle == 0
    ensures Mutate(db, UnblockAll(1)) == Ok(after) && OneCar(after) && after.blocks == map[]
  {
    assert 0 in OwnedBy(db, 1);
    after := Mutate(db, UnblockAll(1)).value;
  }

  lemma AlsoBlocks(dbs: seq<Db>, cs: seq<Change>, d: Day) returns (dbs': seq<Db>, cs': seq<Change>)
    requires Makes(dbs, cs) && OneCar(dbs[|cs|])
    ensures Makes(dbs', cs') && OneCar(dbs'[|cs'|])
    ensures cs' == cs + [BlockAll(1, d * DAY_MS, d * DAY_MS + 1, OwnerBlocked)] && dbs'[..|dbs|] == dbs
    ensures
      var db, after := dbs[|cs|], dbs'[|cs'|];
      after.nextBatch == db.nextBatch + 1 && after.blocks == db.blocks[BlockId(db.nextBatch, 0) := OwnersDay(d)]
  {
    var after := BlockDay(dbs[|cs|], d);
    MakesMore(dbs, cs, BlockAll(1, d * DAY_MS, d * DAY_MS + 1, OwnerBlocked), after);
    dbs', cs' := dbs + [after], cs + [BlockAll(1, d * DAY_MS, d * DAY_MS + 1, OwnerBlocked)];
  }

  /** A reachable vehicle blocked by its owner on day 5, freed on that day by blocking and unblocking day 8. */
  lemma UnblockingCanFreeAnotherDay(form: Registration) returns (dbs: seq<Db>, cs: seq<Change>)
    ensures Makes(dbs, cs) && |cs| == 5
    ensures cs[3] == BlockAll(1, 8 * DAY_MS, 8 * DAY_MS + 1, OwnerBlocked) && cs[4] == UnblockAll(1)
    ensures !Free(dbs[3], 0, 5, 5) && Free(dbs[5], 0, 5, 5)
  {
    dbs, cs := RegisterAndActivate(form);
    dbs, cs := AlsoBlocks(dbs, cs, 5);
    var once := dbs[3];
    dbs, cs := AlsoBlocks(dbs, cs, 8);
    var freed := UnblockCar(dbs[4]);
    MakesMore(dbs, cs, UnblockAll(1), freed);
    dbs, cs := dbs + [freed], cs + [UnblockAll(1)];
    assert dbs[3] == once && Overlaps(once.blocks[BlockId(0, 0)], 0, 5, 5);
  }

  ghost predicate NoOwnerBlocks(db: Db, owner: OwnerId) {
    forall b <- db.blocks :: db.blocks[b].vehicle in OwnedBy(db, owner) ==> db.blocks[b].reason != OwnerBlocked
  }

  lemma NothingToRemove(db: Db, owner: OwnerId)
    ensures WithoutOwnerBlocks(db, OwnedBy(db, owner)) == db.blocks <==> NoOwnerBlocks(db, owner)
  {
  }

  lemma NewOwnerBlocksGo(db: Db, some: set<VehicleId>, all: set<VehicleId>, start: Time, end: Time)
    requires ValidDb(db) && some <= all
    ensures WithoutOwnerBlocks(AddBlocks(db, some, start, end, OwnerBlocked, None), all) == WithoutOwnerBlocks(db, all)
  {
  }
}
