/**
 The catalog and search services as they run: tables and Redis are fields that the methods update.
 Every method is tied to the step functions of AvailabilityCache, so what is proved there over all
 runs holds of them. `left` is what a failing Redis clear leaves behind.
 */
module CatalogService {
  import opened Wrappers
  import opened Calendar
  import opened Catalog
  import opened AvailabilityCache
  import opened Searches

  /** Clearing one vehicle after a set of them is clearing the larger set. */
  lemma LeftTwice(flags: map<FlagKey, Flag>, hits: map<Query, Hits>, vs: set<VehicleId>, v: VehicleId, left: Leftover)
    ensures FlagsLeft(FlagsLeft(flags, vs, left), {v}, left) == FlagsLeft(flags, vs + {v}, left)
    ensures HitsLeft(HitsLeft(hits, left), left) == HitsLeft(hits, left)
  {
  }

  lemma UnblockedTwice(db: Db, vs: set<VehicleId>, v: VehicleId)
    ensures WithoutOwnerBlocks(db.(blocks := WithoutOwnerBlocks(db, vs)), {v}) == WithoutOwnerBlocks(db, vs + {v})
  {
  }

  lemma OneNewBlock(db: Db, id: VehicleId, start: Time, end: Time, reason: Reason, booking: Option<nat>)
    ensures AddBlocks(db, {id}, start, end, reason, booking).blocks ==
            db.blocks[BlockId(db.nextBatch, id) := Block(id, DayOf(start), DayOf(end), reason, booking)]
  {
  }

  /** Flags written for other vehicles do not matter to the answer for v. */
  lemma AnswerAmongOthers(w: World, q: Query, now: Time, io: SearchIO, vs: set<VehicleId>, v: VehicleId, readOk: bool)
    requires v !in vs
    ensures
      var mid := w.(flags := w.flags + FlagsAmong(w, q, now, io, vs));
      && Live(mid, KeyFor(v, q, now), now, readOk) == Live(w, KeyFor(v, q, now), now, readOk)
      && Answer(mid, KeyFor(v, q, now), now, readOk) == Answer(w, KeyFor(v, q, now), now, readOk)
  {
  }

  /** One more isVehicleAvailable call of a search, after those for `vs`. */
  lemma AskOneMore(w: World, q: Query, now: Time, io: SearchIO, vs: set<VehicleId>, v: VehicleId)
    requires v !in vs
    ensures
      var mid := w.(flags := w.flags + FlagsAmong(w, q, now, io, vs));
      FlagsAfterAsk(mid, KeyFor(v, q, now), now, v in io.flagReads, v in io.flagWrites)
      == w.flags + FlagsAmong(w, q, now, io, vs + {v})
  {
  }

  lemma OneMoreRow(w: World, q: Query, now: Time, io: SearchIO, vs: set<VehicleId>, v: VehicleId)
    requires v in w.db.vehicles && v !in vs
    ensures RowsAmong(w, q, now, io, vs + {v}) ==
            if Answer(w, KeyFor(v, q, now), now, v in io.flagReads)
            then RowsAmong(w, q, now, io, vs)[v := w.db.vehicles[v]]
            else RowsAmong(w, q, now, io, vs)
  {
  }

  class Service {
    var vehicles: map<VehicleId, Vehicle>
    var blocks: map<BlockId, Block>
    var retired: set<string>
    var nextVehicle: nat
    var nextBatch: nat
    var flags: map<FlagKey, Flag>
    var hits: map<Query, Hits>

    function Tables(): Db
      reads this
    {
      Db(vehicles, blocks, retired, nextVehicle, nextBatch)
    }

    function State(): World
      reads this
    {
      World(Tables(), flags, hits)
    }

    ghost predicate Valid()
      reads this
    {
      ValidDb(Tables())
    }

    constructor ()
      ensures Valid() && State() == World(Db(map[], map[], {}, 0, 0), map[], map[])
    {
      vehicles, blocks, retired, nextVehicle, nextBatch := map[], map[], {}, 0, 0;
      flags, hits := map[], map[];
    }

    method ClearVehicleCaches(id: VehicleId, left: Leftover)
      modifies this`flags, this`hits
      ensures State() == Clear(old(State()), {id}, left)
    {
      hits := HitsLeft(hits, left);
      flags := FlagsLeft(flags, {id}, left);
    }

    /** The loops that clear the caches of several vehicles. */
    method ClearEach(ids: set<VehicleId>, left: Leftover)
      requires ids != {}
      modifies this`flags, this`hits
      ensures State() == Clear(old(State()), ids, left)
    {
      var todo := ids;
      while todo != {}
        invariant todo <= ids
        invariant flags == FlagsLeft(old(flags), ids - todo, left)
        invariant hits == if todo == ids then old(hits) else HitsLeft(old(hits), left)
        decreases todo
      {
        var id :| id in todo;
        LeftTwice(old(flags), old(hits), ids - todo, id, left);
        ClearVehicleCaches(id, left);
        assert ids - todo + {id} == ids - (todo - {id});
        todo := todo - {id};
      }
    }

    method RegisterVehicle(owner: OwnerId, form: Registration, left: Leftover) returns (failure: Option<Error>)
      requires Valid()
      modifies this
      ensures Valid() && Did(old(State()), State(), Register(owner, form), left, failure)
    {
      if id :| id in vehicles && vehicles[id].registration == form.number {
        assert Holder(Tables(), form.number) == Some(id);
        if vehicles[id].owner != owner {
          return Some(BadRequest);
        }
        vehicles := vehicles[id := Registered(vehicles[id], form)];
        ClearVehicleCaches(id, left);
      } else if form.number in retired {
        return Some(Conflict);
      } else {
        assert Holder(Tables(), form.number) == None;
        var id := nextVehicle;
        vehicles, nextVehicle := vehicles[id := NewVehicle(owner, form)], nextVehicle + 1;
        ClearVehicleCaches(id, left);
      }
      failure := None;
      MutateKeepsValid(old(Tables()), Register(owner, form));
    }

    method UpdateVehicle(id: VehicleId, owner: OwnerId, patch: Patch, left: Leftover) returns (failure: Option<Error>)
      requires Valid()
      modifies this
      ensures Valid() && Did(old(State()), State(), Update(id, owner, patch), left, failure)
    {
      if id !in vehicles {
        return Some(NotFound);
      }
      if vehicles[id].owner != owner {
        return Some(Forbidden);
      }
      if patch.online == Some(true) && vehicles[id].status != Active {
        return Some(BadRequest);
      }
      var saved := Patched(vehicles[id], patch);
      if || saved.registration in retired
         || exists v <- vehicles :: v != id && vehicles[v].registration == saved.registration
      {
        return Some(Conflict);
      }
      vehicles := vehicles[id := saved];
      ClearVehicleCaches(id, left);
      failure := None;
      MutateKeepsValid(old(Tables()), Update(id, owner, patch));
    }

    method DeleteVehicle(id: VehicleId, owner: OwnerId, left: Leftover) returns (failure: Option<Error>)
      requires Valid()
      modifies this
      ensures Valid() && Did(old(State()), State(), Delete(id, owner), left, failure)
    {
      if id !in vehicles {
        return Some(NotFound);
      }
      if vehicles[id].owner != owner {
        return Some(Forbidden);
      }
      retired := retired + {vehicles[id].registration};
      vehicles := vehicles - {id};
      ClearVehicleCaches(id, left);
      failure := None;
    }

    method ActivateVehicle(id: VehicleId, left: Leftover) returns (failure: Option<Error>)
      requires Valid()
      modifies this
      ensures Valid() && Did(old(State()), State(), Activate(id), left, failure)
    {
      if id !in vehicles {
        return Some(NotFound);
      }
      vehicles := vehicles[id := vehicles[id].(status := Active, online := true)];
      ClearVehicleCaches(id, left);
      failure := None;
      MutateKeepsValid(old(Tables()), Activate(id));
    }

    method SuspendVehicle(id: VehicleId, left: Leftover) returns (failure: Option<Error>)
      requires Valid()
      modifies this
      ensures Valid() && Did(old(State()), State(), Suspend(id), left, failure)
    {
      if id !in vehicles {
        return Some(NotFound);
      }
      vehicles := vehicles[id := vehicles[id].(status := Suspended, online := false)];
      ClearVehicleCaches(id, left);
      failure := None;
      MutateKeepsValid(old(Tables()), Suspend(id));
    }

    method UpdateVehicleOnlineStatus(id: VehicleId, owner: OwnerId, online: bool, left: Leftover)
      returns (failure: Option<Error>)
      requires Valid()
      modifies this
      ensures Valid() && Did(old(State()), State(), SetOnline(id, owner, online), left, failure)
    {
      if id !in vehicles {
        return Some(NotFound);
      }
      if vehicles[id].owner != owner {
        return Some(Forbidden);
      }
      if vehicles[id].status != Active {
        return Some(BadRequest);
      }
      vehicles := vehicles[id := vehicles[id].(online := online)];
      ClearVehicleCaches(id, left);
      failure := None;
      MutateKeepsValid(old(Tables()), SetOnline(id, owner, online));
    }

    method UpdateOwnerVehiclesAvailability(owner: OwnerId, online: bool, left: Leftover)
      returns (failure: Option<Error>)
      requires Valid()
      modifies this
      ensures Valid() && Did(old(State()), State(), SetAllOnline(owner, online), left, failure)
    {
      var owned := OwnedBy(Tables(), owner);
      if owned == {} {
        return Some(NotFound);
      }
      vehicles := SwitchedAll(Tables(), owner, online);
      ClearEach(owned, left);
      failure := None;
      MutateKeepsValid(old(Tables()), SetAllOnline(owner, online));
    }

    method BlockVehicle(
      id: VehicleId, owner: OwnerId, start: Time, end: Time, reason: Reason, booking: Option<nat>, left: Leftover)
      returns (failure: Option<Error>)
      requires Valid()
      modifies this
      ensures Valid() && Did(old(State()), State(), BlockOne(id, owner, start, end, reason, booking), left, failure)
    {
      if id !in vehicles {
        return Some(NotFound);
      }
      if vehicles[id].owner != owner {
        return Some(Forbidden);
      }
      if vehicles[id].status != Active || start >= end {
        return Some(BadRequest);
      }
      OneNewBlock(Tables(), id, start, end, reason, booking);
      blocks := blocks[BlockId(nextBatch, id) := Block(id, DayOf(start), DayOf(end), reason, booking)];
      nextBatch := nextBatch + 1;
      ClearVehicleCaches(id, left);
      failure := None;
      MutateKeepsValid(old(Tables()), BlockOne(id, owner, start, end, reason, booking));
    }

    method InsertBlocks(vs: set<VehicleId>, start: Time, end: Time, reason: Reason)
      modifies this`blocks, this`nextBatch
      ensures Tables() == AddBlocks(old(Tables()), vs, start, end, reason, None)
    {
      blocks := blocks + NewBlocks(nextBatch, vs, start, end, reason, None);
      nextBatch := nextBatch + 1;
    }

    method BlockAllOwnerVehicles(owner: OwnerId, start: Time, end: Time, reason: Reason, left: Leftover)
      returns (failure: Option<Error>)
      requires Valid()
      modifies this
      ensures Valid() && Did(old(State()), State(), BlockAll(owner, start, end, reason), left, failure)
    {
      if OwnedBy(Tables(), owner) == {} {
        return Some(NotFound);
      }
      var active := ActiveOf(Tables(), owner);
      if active == {} || start >= end {
        return Some(BadRequest);
      }
      InsertBlocks(active, start, end, reason);
      ClearEach(active, left);
      failure := None;
      assert Tables() == Mutate(old(Tables()), BlockAll(owner, start, end, reason)).value;
      MutateKeepsValid(old(Tables()), BlockAll(owner, start, end, reason));
    }

    method UnblockVehicle(id: BlockId, owner: OwnerId, left: Leftover) returns (failure: Option<Error>)
      requires Valid()
      modifies this
      ensures Valid() && Did(old(State()), State(), Unblock(id, owner), left, failure)
    {
      if id !in blocks {
        return Some(NotFound);
      }
      var vehicle := blocks[id].vehicle;
      if vehicle !in vehicles {
        return Some(Crash);
      }
      if vehicles[vehicle].owner != owner {
        return Some(Forbidden);
      }
      blocks := blocks - {id};
      ClearVehicleCaches(vehicle, left);
      failure := None;
    }

    /** Deletes and clears vehicle by vehicle, in whatever order the rows come. */
    method UnblockEach(owned: set<VehicleId>, left: Leftover)
      requires owned != {}
      modifies this`blocks, this`flags, this`hits
      ensures blocks == WithoutOwnerBlocks(old(Tables()), owned)
      ensures flags == FlagsLeft(old(flags), owned, left) && hits == HitsLeft(old(hits), left)
    {
      var todo := owned;
      while todo != {}
        invariant todo <= owned
        invariant blocks == WithoutOwnerBlocks(old(Tables()), owned - todo)
        invariant flags == FlagsLeft(old(flags), owned - todo, left)
        invariant hits == if todo == owned then old(hits) else HitsLeft(old(hits), left)
        decreases todo
      {
        var id :| id in todo;
        LeftTwice(old(flags), old(hits), owned - todo, id, left);
        UnblockedTwice(old(Tables()), owned - todo, id);
        assert owned - todo + {id} == owned - (todo - {id});
        blocks := WithoutOwnerBlocks(Tables(), {id});
        ClearVehicleCaches(id, left);
        todo := todo - {id};
      }
    }

    method UnblockAllOwnerVehicles(owner: OwnerId, left: Leftover) returns (failure: Option<Error>)
      requires Valid()
      modifies this
      ensures Valid() && Did(old(State()), State(), UnblockAll(owner), left, failure)
    {
      var owned := OwnedBy(Tables(), owner);
      if owned == {} {
        return Some(NotFound);
      }
      UnblockEach(owned, left);
      failure := None;
      MutateKeepsValid(old(Tables()), UnblockAll(owner));
    }

    method UpdatePlateType(id: VehicleId, plate: PlatePatch) returns (failure: Option<Error>)
      requires Valid()
      modifies this`vehicles
      ensures Valid() && forall left :: Did(old(State()), State(), SetPlate(id, plate), left, failure)
    {
      if id !in vehicles {
        return Some(NotFound);
      }
      vehicles := vehicles[id := vehicles[id].(plate := Replated(vehicles[id].plate, plate))];
      failure := None;
    }

    method SetPrices(id: VehicleId, tariff: TariffPatch) returns (failure: Option<Error>)
      requires Valid()
      modifies this`vehicles
      ensures Valid() && forall left :: Did(old(State()), State(), SetPricing(id, tariff), left, failure)
    {
      if id !in vehicles {
        return Some(NotFound);
      }
      vehicles := vehicles[id := vehicles[id].(tariff := Repriced(vehicles[id].tariff, tariff))];
      failure := None;
    }

    method IsVehicleAvailable(k: FlagKey, now: Time, readOk: bool, writeOk: bool) returns (free: bool)
      modifies this`flags
      ensures free == Answer(old(State()), k, now, readOk)
      ensures flags == FlagsAfterAsk(old(State()), k, now, readOk, writeOk)
    {
      if readOk && k in flags && now < flags[k].expiry {
        return flags[k].free;
      }
      if !(k.vehicle in vehicles && vehicles[k.vehicle].online && vehicles[k.vehicle].status == Active) {
        free := false;
      } else {
        free := !exists b <- blocks :: Overlaps(blocks[b], k.vehicle, k.first, k.last);
      }
      if writeOk {
        flags := flags[k := Flag(free, now + FLAG_TTL)];
      }
    }

    /** Asks isVehicleAvailable for each matching row, in any order, and keeps the free ones. */
    method AskEach(q: Query, now: Time, io: SearchIO) returns (rows: map<VehicleId, Vehicle>)
      modifies this`flags
      ensures rows == Searched(old(State()), q, now, io)
      ensures flags == old(flags) + FlagsAmong(old(State()), q, now, io, Matches(Tables(), q))
    {
      ghost var w := State();
      var matching := Matches(Tables(), q);
      var todo := matching;
      rows := map[];
      while todo != {}
        invariant todo <= matching
        invariant rows == RowsAmong(w, q, now, io, matching - todo)
        invariant flags == w.flags + FlagsAmong(w, q, now, io, matching - todo)
        decreases todo
      {
        var v :| v in todo;
        OneMoreRow(w, q, now, io, matching - todo, v);
        AnswerAmongOthers(w, q, now, io, matching - todo, v, v in io.flagReads);
        AskOneMore(w, q, now, io, matching - todo, v);
        assert matching - todo + {v} == matching - (todo - {v});
        var free := IsVehicleAvailable(KeyFor(v, q, now), now, v in io.flagReads, v in io.flagWrites);
        if free {
          rows := rows[v := vehicles[v]];
        }
        todo := todo - {v};
      }
      assert matching - todo == matching;
    }

    /** Without a live entry: the vehicles that suit the request and are said to be free, and no others. */
    method SearchVehicles(q: Query, now: Time, io: SearchIO) returns (rows: map<VehicleId, Vehicle>)
      modifies this`flags, this`hits
      ensures !HitIsLive(old(State()), q, now, io) ==> forall v ::
                v in rows <==> v in vehicles && Suits(vehicles[v], q)
                               && Answer(old(State()), KeyFor(v, q, now), now, v in io.flagReads)
      ensures !HitIsLive(old(State()), q, now, io) ==> forall v <- rows :: v in vehicles && rows[v] == vehicles[v]
      ensures rows == Found(old(State()), q, now, io)
      ensures State() == AfterSearch(old(State()), q, now, io)
    {
      if io.readOk && q in hits && now < hits[q].expiry {
        return hits[q].rows;
      }
      rows := AskEach(q, now, io);
      forall v <- vehicles ensures Suits(vehicles[v], q) <==> v in Matches(Tables(), q) {
        SuitsIff(vehicles[v], q);
      }
      if io.writeOk {
        hits := hits[q := Hits(rows, now + SEARCH_TTL)];
      }
    }
  }
}
