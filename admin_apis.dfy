/** The administrator's state-changing handlers: creating, editing (and resizing) and deleting
    parking lots. Every handler runs only for a caller holding the "admin" role. */
module AdminApis {
  import opened Common
  import opened Models
  import opened Responses
  import opened Billing
  import opened Store

  // ---------------------------------------------------------------------------------------
  // Spot creation, shared by lot creation and lot growth

  /** `spots` after `count` new Available spots of lot `lotId` were inserted under the keys
      from, from + 1, ...; a count below one inserts nothing. */
  function WithNewSpots(spots: map<int, ParkingSpot>, lotId: int, from: int, count: int): map<int, ParkingSpot>
    decreases if count < 0 then 0 else count
  {
    if count <= 0 then spots
    else WithNewSpots(spots, lotId, from, count - 1)[from + count - 1 := NewSpot(lotId)]
  }

  /** Inserting new spots keeps every existing spot as it was and adds exactly the keys
      [from, from + count), each an Available spot of `lotId`. */
  lemma {:induction false} WithNewSpotsShape(spots: map<int, ParkingSpot>, lotId: int, from: int, count: int)
    requires forall k :: k in spots ==> k < from
    ensures forall k :: k in WithNewSpots(spots, lotId, from, count) <==> k in spots || from <= k < from + count
    ensures forall k :: k in spots ==> WithNewSpots(spots, lotId, from, count)[k] == spots[k]
    ensures forall k :: k in WithNewSpots(spots, lotId, from, count) && k !in spots ==>
              WithNewSpots(spots, lotId, from, count)[k] == NewSpot(lotId)
    decreases if count < 0 then 0 else count
  {
    if count > 0 {
      WithNewSpotsShape(spots, lotId, from, count - 1);
    }
  }

  /** Inserting `count` spots of `lotId` grows that lot's spot set by exactly max(count, 0)
      and leaves the spot set of every other lot as it was. */
  lemma {:induction false} WithNewSpotsCounts(spots: map<int, ParkingSpot>, lotId: int, from: int, count: int)
    requires forall k :: k in spots ==> k < from
    ensures |LotSpots(WithNewSpots(spots, lotId, from, count), lotId)| == |LotSpots(spots, lotId)| + (if count < 0 then 0 else count)
    ensures forall l :: l != lotId ==> LotSpots(WithNewSpots(spots, lotId, from, count), l) == LotSpots(spots, l)
    decreases if count < 0 then 0 else count
  {
    if count > 0 {
      WithNewSpotsCounts(spots, lotId, from, count - 1);
      WithNewSpotsShape(spots, lotId, from, count - 1);
      var before := WithNewSpots(spots, lotId, from, count - 1);
      var after := WithNewSpots(spots, lotId, from, count);
      var key := from + count - 1;
      assert key !in before;
      forall x
        ensures x in LotSpots(after, lotId) <==> x in LotSpots(before, lotId) + {key}
      {
      }
      assert LotSpots(after, lotId) == LotSpots(before, lotId) + {key};
      forall l | l != lotId
        ensures LotSpots(after, l) == LotSpots(spots, l)
      {
        forall x
          ensures x in LotSpots(after, l) <==> x in LotSpots(before, l)
        {
        }
        assert LotSpots(after, l) == LotSpots(before, l);
      }
    } else {
      forall l
        ensures LotSpots(WithNewSpots(spots, lotId, from, count), l) == LotSpots(spots, l)
      {
      }
    }
  }

  /** Adding Available spots keys that no reservation can reference keeps occupancy in step. */
  lemma WithNewSpotsKeepsOccupancy(spots: map<int, ParkingSpot>, reservations: map<int, Reservation>, lotId: int, from: int, count: int)
    requires forall k :: k in spots ==> k < from
    requires OccupancyAgrees(spots, reservations)
    ensures OccupancyAgrees(WithNewSpots(spots, lotId, from, count), reservations)
  {
    WithNewSpotsShape(spots, lotId, from, count);
  }

  /** The loop `for _ in range(count)` that adds Available spots to a lot. */
  method AddAvailableSpots(db: Database, lotId: int, count: int)
    requires KeysBelow(db.spots, db.nextSpotId)
    modifies db`spots, db`nextSpotId
    ensures db.spots == WithNewSpots(old(db.spots), lotId, old(db.nextSpotId), count)
    ensures db.nextSpotId == old(db.nextSpotId) + (if count < 0 then 0 else count)
  {
    var i := 0;
    while i < count
      invariant 0 <= i && (count >= 0 ==> i <= count) && (count < 0 ==> i == 0)
      invariant db.spots == WithNewSpots(old(db.spots), lotId, old(db.nextSpotId), i)
      invariant db.nextSpotId == old(db.nextSpotId) + i
    {
      db.spots := db.spots[db.nextSpotId := NewSpot(lotId)];
      db.nextSpotId := db.nextSpotId + 1;
      i := i + 1;
    }
    assert count <= 0 ==> WithNewSpots(old(db.spots), lotId, old(db.nextSpotId), count) == old(db.spots);
  }

  // ---------------------------------------------------------------------------------------
  // Create lot

  datatype LotCreated = LotCreated(lotId: int, spotsCreated: int)

  /** A fresh lot created with `n` spots keeps the stored counts in step exactly when n is
      not negative: a negative count creates no spot but is stored as it was given. */
  lemma CreateKeepsCountsIff(lots: map<int, ParkingLot>, spots: map<int, ParkingSpot>, id: int, lot: ParkingLot, from: int)
    requires CountsAgree(lots, spots) && SpotsReferenceLots(lots, spots)
    requires id !in lots
    requires forall k :: k in spots ==> k < from
    ensures CountsAgree(lots[id := lot], WithNewSpots(spots, id, from, lot.numberOfSpots)) <==> lot.numberOfSpots >= 0
  {
    var spots' := WithNewSpots(spots, id, from, lot.numberOfSpots);
    WithNewSpotsCounts(spots, id, from, lot.numberOfSpots);
    forall x
      ensures x !in LotSpots(spots, id)
    {
    }
    assert LotSpots(spots, id) == {};
    forall l | l in lots[id := lot] && l != id
      ensures lots[id := lot][l].numberOfSpots == |LotSpots(spots', l)|
    {
    }
  }

  /** ParkingLOTCreator.post: refuses a request missing any of the four fields (naming the
      first missing one, in the order location_name, price, pin_code, number_of_spots) and
      otherwise stores the lot as given, with no check on price or count, and creates
      number_of_spots Available spots for it (none when the count is not positive). */
  method CreateLot(db: Database, caller: int, locationName: Option<string>, price: Option<int>,
                   pinCode: Option<string>, numberOfSpots: Option<int>)
    returns (out: Outcome<LotCreated>)
    requires db.Valid() && db.CallerHasRole(caller, "admin")
    modifies db`lots, db`nextLotId, db`spots, db`nextSpotId
    ensures db.Valid()
    ensures locationName.None? ==> out == Fail(FieldRequired("location_name"))
    ensures locationName.Some? && price.None? ==> out == Fail(FieldRequired("price"))
    ensures locationName.Some? && price.Some? && pinCode.None? ==> out == Fail(FieldRequired("pin_code"))
    ensures locationName.Some? && price.Some? && pinCode.Some? && numberOfSpots.None? ==>
              out == Fail(FieldRequired("number_of_spots"))
    ensures out.Fail? ==> unchanged(db)
    ensures out.Ok? <==> locationName.Some? && price.Some? && pinCode.Some? && numberOfSpots.Some?
    ensures out.Ok? ==>
              var id, n := old(db.nextLotId), numberOfSpots.value;
              && id !in old(db.lots)
              && out.value == LotCreated(id, n)
              && db.lots == old(db.lots)[id := ParkingLot(locationName.value, price.value, pinCode.value, n)]
              && db.spots == WithNewSpots(old(db.spots), id, old(db.nextSpotId), n)
    ensures out.Ok? && old(db.SpotCountsAgree()) ==> (db.SpotCountsAgree() <==> numberOfSpots.value >= 0)
  {
    if locationName.None? {
      return Fail(FieldRequired("location_name"));
    }
    if price.None? {
      return Fail(FieldRequired("price"));
    }
    if pinCode.None? {
      return Fail(FieldRequired("pin_code"));
    }
    if numberOfSpots.None? {
      return Fail(FieldRequired("number_of_spots"));
    }
    var lot := ParkingLot(locationName.value, price.value, pinCode.value, numberOfSpots.value);
    ghost var lots0, spots0, next0 := db.lots, db.spots, db.nextSpotId;
    ghost var agreed := CountsAgree(lots0, spots0);
    var id := InsertLot(db, lot);
    AddLotSpots(db, id, lot.numberOfSpots);
    if agreed {
      CreateKeepsCountsIff(lots0, spots0, id, lot, next0);
    }
    out := Ok(LotCreated(id, lot.numberOfSpots));
  }

  /** Stores a new lot row under the next lot id. */
  method InsertLot(db: Database, lot: ParkingLot) returns (id: int)
    requires db.Valid()
    modifies db`lots, db`nextLotId
    ensures db.Valid()
    ensures id == old(db.nextLotId) && id !in old(db.lots)
    ensures db.lots == old(db.lots)[id := lot]
  {
    id := db.nextLotId;
    db.lots := db.lots[id := lot];
    db.nextLotId := id + 1;
  }

  /** Adds `count` Available spots to an existing lot (none when `count` is not positive),
      numbered from the next spot id. */
  method AddLotSpots(db: Database, lotId: int, count: int)
    requires db.Valid() && lotId in db.lots
    modifies db`spots, db`nextSpotId
    ensures db.Valid()
    ensures db.spots == WithNewSpots(old(db.spots), lotId, old(db.nextSpotId), count)
  {
    ghost var spots0, next0 := db.spots, db.nextSpotId;
    AddAvailableSpots(db, lotId, count);
    WithNewSpotsShape(spots0, lotId, next0, count);
    WithNewSpotsKeepsOccupancy(spots0, db.reservations, lotId, next0, count);
  }

  // ---------------------------------------------------------------------------------------
  // Edit lot

  /** The lot with every field present in the request overwritten. */
  function Edited(lot: ParkingLot, locationName: Option<string>, price: Option<int>,
                  pinCode: Option<string>, numberOfSpots: Option<int>): ParkingLot
  {
    ParkingLot(
      if locationName.Some? then locationName.value else lot.locationName,
      if price.Some? then price.value else lot.price,
      if pinCode.Some? then pinCode.value else lot.pinCode,
      if numberOfSpots.Some? then numberOfSpots.value else lot.numberOfSpots)
  }

  /** Growing lot `id` by adding exactly (new count - stored count) fresh spots keeps every
      stored count in step. */
  lemma GrowKeepsCounts(lots: map<int, ParkingLot>, spots: map<int, ParkingSpot>, id: int, lot: ParkingLot, from: int)
    requires CountsAgree(lots, spots) && id in lots
    requires lot.numberOfSpots > lots[id].numberOfSpots
    requires forall k :: k in spots ==> k < from
    ensures CountsAgree(lots[id := lot], WithNewSpots(spots, id, from, lot.numberOfSpots - lots[id].numberOfSpots))
  {
    WithNewSpotsCounts(spots, id, from, lot.numberOfSpots - lots[id].numberOfSpots);
  }

  /** Shrinking lot `id` by removing exactly (stored count - new count) of its own spots
      keeps every stored count in step. */
  lemma ShrinkKeepsCounts(lots: map<int, ParkingLot>, spots: map<int, ParkingSpot>, id: int, lot: ParkingLot, removed: set<int>)
    requires CountsAgree(lots, spots) && id in lots
    requires removed <= LotSpots(spots, id)
    requires |removed| == lots[id].numberOfSpots - lot.numberOfSpots
    ensures CountsAgree(lots[id := lot], spots - removed)
  {
    forall l | l in lots
      ensures LotSpots(spots - removed, l) == if l == id then LotSpots(spots, l) - removed else LotSpots(spots, l)
    {
      forall x
        ensures x in LotSpots(spots - removed, l) <==> x in (if l == id then LotSpots(spots, l) - removed else LotSpots(spots, l))
      {
      }
    }
  }

  /** Keeping the stored count leaves every count in step. */
  lemma SameCountKeepsCounts(lots: map<int, ParkingLot>, spots: map<int, ParkingSpot>, id: int, lot: ParkingLot)
    requires CountsAgree(lots, spots) && id in lots
    requires lot.numberOfSpots == lots[id].numberOfSpots
    ensures CountsAgree(lots[id := lot], spots)
  {
  }

  /** A lot whose count is in step can never be shrunk to a negative count: it has fewer
      Available spots than the shrink would remove. */
  lemma NegativeCountRefused(lots: map<int, ParkingLot>, spots: map<int, ParkingSpot>, id: int, newCount: int)
    requires CountsAgree(lots, spots) && id in lots && newCount < 0
    ensures |LotSpotsWith(spots, id, Available)| < lots[id].numberOfSpots - newCount
  {
    LotSpotsPartition(spots, id);
  }

  /** Removing spots none of which is Occupied keeps occupancy in step with the active
      reservations: no active reservation referenced them. */
  lemma RemovingAvailableKeepsOccupancy(spots: map<int, ParkingSpot>, reservations: map<int, Reservation>, removed: set<int>)
    requires OccupancyAgrees(spots, reservations)
    requires forall s :: s in removed && s in spots ==> spots[s].status == Available
    ensures OccupancyAgrees(spots - removed, reservations)
  {
  }

  /** The loop deleting `count` of the lot's Available spots, taken in whatever order the
      unordered query returned them. */
  method RemoveAvailableSpots(db: Database, lotId: int, count: int)
    requires 0 <= count <= |LotSpotsWith(db.spots, lotId, Available)|
    modifies db`spots
    ensures db.spots.Keys <= old(db.spots).Keys
    ensures old(db.spots).Keys - db.spots.Keys <= old(LotSpotsWith(db.spots, lotId, Available))
    ensures |old(db.spots).Keys - db.spots.Keys| == count
    ensures db.spots == old(db.spots) - (old(db.spots).Keys - db.spots.Keys)
  {
    var available := LotSpotsWith(db.spots, lotId, Available);
    var left := available;
    ghost var removed: set<int> := {};
    var i := 0;
    while i < count
      invariant 0 <= i <= count
      invariant removed <= available && |removed| == i
      invariant left == available - removed && |left| == |available| - i
      invariant db.spots == old(db.spots) - removed
    {
      Inhabited(left);
      var s :| s in left;
      db.spots := db.spots - {s};
      left := left - {s};
      removed := removed + {s};
      i := i + 1;
    }
    assert old(db.spots).Keys - db.spots.Keys == removed;
  }

  /** How the spot table changes when lot `lotId` goes from `oldCount` to `newCount` spots:
      growth adds the difference as fresh Available spots, shrinking removes that many of the
      lot's Available spots and touches nothing else, an equal count changes nothing. */
  ghost predicate ResizedAs(spots: map<int, ParkingSpot>, spots': map<int, ParkingSpot>, next: int, next': int,
                            lotId: int, oldCount: int, newCount: int)
  {
    if newCount > oldCount then
      spots' == WithNewSpots(spots, lotId, next, newCount - oldCount) && next' == next + (newCount - oldCount)
    else if newCount < oldCount then
      && next' == next
      && spots'.Keys <= spots.Keys
      && spots' == spots - (spots.Keys - spots'.Keys)
      && spots.Keys - spots'.Keys <= LotSpotsWith(spots, lotId, Available)
      && |spots.Keys - spots'.Keys| == oldCount - newCount
    else
      spots' == spots && next' == next
  }

  /** Adding the difference as fresh spots keeps the keys fresh, the lot references and the
      occupancy intact, and every stored count in step when it was before. */
  lemma GrowPreserves(lots: map<int, ParkingLot>, spots: map<int, ParkingSpot>, reservations: map<int, Reservation>,
                      next: int, id: int, lot: ParkingLot)
    requires KeysBelow(spots, next) && OccupancyAgrees(spots, reservations) && SpotsReferenceLots(lots, spots)
    requires id in lots && lot.numberOfSpots > lots[id].numberOfSpots
    ensures var spots' := WithNewSpots(spots, id, next, lot.numberOfSpots - lots[id].numberOfSpots);
      && KeysBelow(spots', next + (lot.numberOfSpots - lots[id].numberOfSpots))
      && OccupancyAgrees(spots', reservations)
      && SpotsReferenceLots(lots, spots')
      && (CountsAgree(lots, spots) ==> CountsAgree(lots[id := lot], spots'))
  {
    var count := lot.numberOfSpots - lots[id].numberOfSpots;
    WithNewSpotsShape(spots, id, next, count);
    WithNewSpotsKeepsOccupancy(spots, reservations, id, next, count);
    if CountsAgree(lots, spots) {
      GrowKeepsCounts(lots, spots, id, lot, next);
    }
  }

  /** The growing half of the number_of_spots branch: the difference is added as fresh
      Available spots of the lot. */
  method GrowLot(db: Database, lotId: int, newCount: int, ghost edited: ParkingLot)
    requires db.Valid() && lotId in db.lots && edited.numberOfSpots == newCount
    requires newCount > db.lots[lotId].numberOfSpots
    modifies db`spots, db`nextSpotId
    ensures db.Valid()
    ensures ResizedAs(old(db.spots), db.spots, old(db.nextSpotId), db.nextSpotId, lotId, db.lots[lotId].numberOfSpots, newCount)
    ensures CountsAgree(db.lots, old(db.spots)) ==> CountsAgree(db.lots[lotId := edited], db.spots)
  {
    GrowPreserves(db.lots, db.spots, db.reservations, db.nextSpotId, lotId, edited);
    AddAvailableSpots(db, lotId, newCount - db.lots[lotId].numberOfSpots);
  }

  /** The shrinking half of the number_of_spots branch, once the lot is known to have enough
      Available spots: that many of them are removed. */
  method ShrinkLot(db: Database, lotId: int, newCount: int, ghost edited: ParkingLot)
    requires db.Valid() && lotId in db.lots && edited.numberOfSpots == newCount
    requires newCount < db.lots[lotId].numberOfSpots
    requires db.lots[lotId].numberOfSpots - newCount <= |LotSpotsWith(db.spots, lotId, Available)|
    modifies db`spots
    ensures db.Valid()
    ensures ResizedAs(old(db.spots), db.spots, db.nextSpotId, db.nextSpotId, lotId, db.lots[lotId].numberOfSpots, newCount)
    ensures CountsAgree(db.lots, old(db.spots)) ==> CountsAgree(db.lots[lotId := edited], db.spots)
  {
    var oldCount := db.lots[lotId].numberOfSpots;
    ghost var spots0 := db.spots;
    ghost var agreed := CountsAgree(db.lots, spots0);
    DropLotSpots(db, lotId, oldCount - newCount);
    if agreed {
      ShrinkKeepsCounts(db.lots, spots0, lotId, edited, spots0.Keys - db.spots.Keys);
    }
  }

  /** Removes `count` of a lot's Available spots; occupancy still agrees since none of them
      carries an active reservation. */
  method DropLotSpots(db: Database, lotId: int, count: int)
    requires db.Valid() && 0 <= count <= |LotSpotsWith(db.spots, lotId, Available)|
    modifies db`spots
    ensures db.Valid()
    ensures db.spots.Keys <= old(db.spots).Keys
    ensures old(db.spots).Keys - db.spots.Keys <= old(LotSpotsWith(db.spots, lotId, Available))
    ensures |old(db.spots).Keys - db.spots.Keys| == count
    ensures db.spots == old(db.spots) - (old(db.spots).Keys - db.spots.Keys)
  {
    ghost var spots0 := db.spots;
    RemoveAvailableSpots(db, lotId, count);
    RemovingAvailableKeepsOccupancy(spots0, db.reservations, spots0.Keys - db.spots.Keys);
  }

  /** The number_of_spots branch of the editor: resizes the lot's spot set as ResizedAs says,
      or refuses (ok == false, nothing changed) when the lot has too few Available spots. */
  method ResizeLot(db: Database, lotId: int, newCount: int, ghost edited: ParkingLot) returns (ok: bool)
    requires db.Valid() && lotId in db.lots && edited.numberOfSpots == newCount
    modifies db`spots, db`nextSpotId
    ensures db.Valid()
    ensures !ok <==> |old(LotSpotsWith(db.spots, lotId, Available))| < db.lots[lotId].numberOfSpots - newCount
    ensures !ok ==> unchanged(db)
    ensures ok ==> ResizedAs(old(db.spots), db.spots, old(db.nextSpotId), db.nextSpotId, lotId, db.lots[lotId].numberOfSpots, newCount)
    ensures ok && CountsAgree(db.lots, old(db.spots)) ==> CountsAgree(db.lots[lotId := edited], db.spots)
  {
    var oldCount := db.lots[lotId].numberOfSpots;
    if newCount > oldCount {
      GrowLot(db, lotId, newCount, edited);
    } else if newCount < oldCount {
      var available := LotSpotsWith(db.spots, lotId, Available);
      if |available| < oldCount - newCount {
        return false;
      }
      ShrinkLot(db, lotId, newCount, edited);
    } else {
      assert ResizedAs(db.spots, db.spots, db.nextSpotId, db.nextSpotId, lotId, oldCount, newCount);
    }
    ok := true;
  }

  /** Overwrites the row of an existing lot; its spots still reference an existing lot. */
  method StoreLot(db: Database, lotId: int, lot: ParkingLot)
    requires db.Valid() && lotId in db.lots
    modifies db`lots
    ensures db.Valid()
    ensures db.lots == old(db.lots)[lotId := lot]
  {
    ghost var lots0 := db.lots;
    db.lots := db.lots[lotId := lot];
    assert db.lots.Keys == lots0.Keys;
    assert SpotsReferenceLots(db.lots, db.spots);
  }

  /** ParkingLOTEditor.put: 404 for an unknown lot; otherwise overwrites the fields present.
      A larger number_of_spots adds the difference as Available spots; a smaller one removes
      that many Available spots of the lot, chosen in no particular order, and is refused
      with nothing changed when the lot has fewer Available spots than that. */
  method EditLot(db: Database, caller: int, lotId: int, locationName: Option<string>, price: Option<int>,
                 pinCode: Option<string>, numberOfSpots: Option<int>)
    returns (out: Outcome<int>)
    requires db.Valid() && db.CallerHasRole(caller, "admin")
    modifies db`lots, db`spots, db`nextSpotId
    ensures db.Valid()
    ensures out.Fail? ==> unchanged(db)
    ensures out == Fail(LotNotFound) <==> lotId !in old(db.lots)
    ensures out == Fail(CannotReduceSpots) <==>
              lotId in old(db.lots) && numberOfSpots.Some? &&
              |old(LotSpotsWith(db.spots, lotId, Available))| < old(db.lots[lotId].numberOfSpots) - numberOfSpots.value
    ensures out.Ok? <==>
              lotId in old(db.lots) &&
              !(numberOfSpots.Some? &&
                |old(LotSpotsWith(db.spots, lotId, Available))| < old(db.lots[lotId].numberOfSpots) - numberOfSpots.value)
    ensures out.Ok? ==>
              && out.value == lotId
              && db.lots == old(db.lots)[lotId := Edited(old(db.lots[lotId]), locationName, price, pinCode, numberOfSpots)]
              && ResizedAs(old(db.spots), db.spots, old(db.nextSpotId), db.nextSpotId, lotId,
                           old(db.lots[lotId].numberOfSpots), db.lots[lotId].numberOfSpots)
    ensures old(db.SpotCountsAgree()) ==> db.SpotCountsAgree()
  {
    if lotId !in db.lots {
      return Fail(LotNotFound);
    }
    var edited := Edited(db.lots[lotId], locationName, price, pinCode, numberOfSpots);
    ghost var lots0, spots0, next0, count0 := db.lots, db.spots, db.nextSpotId, db.lots[lotId].numberOfSpots;
    ghost var agreed := CountsAgree(lots0, spots0);
    if numberOfSpots.Some? {
      var ok := ResizeLot(db, lotId, numberOfSpots.value, edited);
      if !ok {
        return Fail(CannotReduceSpots);
      }
    } else {
      assert ResizedAs(spots0, spots0, next0, next0, lotId, count0, count0);
      if agreed {
        SameCountKeepsCounts(lots0, spots0, lotId, edited);
      }
    }
    assert ResizedAs(spots0, db.spots, next0, db.nextSpotId, lotId, count0, edited.numberOfSpots);
    assert agreed ==> CountsAgree(lots0[lotId := edited], db.spots);
    StoreLot(db, lotId, edited);
    out := Ok(lotId);
  }

  // ---------------------------------------------------------------------------------------
  // Delete lot

  /** The spot table after the bulk delete of every spot of lot `lotId`. */
  function WithoutLot(spots: map<int, ParkingSpot>, lotId: int): (r: map<int, ParkingSpot>)
    ensures forall s :: s in r <==> s in spots && spots[s].lotId != lotId
    ensures forall s :: s in r ==> r[s] == spots[s]
  {
    map s | s in spots && spots[s].lotId != lotId :: spots[s]
  }

  /** After the bulk delete the lot has no spot left, and every other lot keeps exactly its
      spots. */
  lemma WithoutLotSpots(spots: map<int, ParkingSpot>, lotId: int)
    ensures LotSpots(WithoutLot(spots, lotId), lotId) == {}
    ensures forall l :: l != lotId ==> LotSpots(WithoutLot(spots, lotId), l) == LotSpots(spots, l)
  {
    var r := WithoutLot(spots, lotId);
    forall x
      ensures x !in LotSpots(r, lotId)
    {
    }
    forall l | l != lotId
      ensures LotSpots(r, l) == LotSpots(spots, l)
    {
      forall x
        ensures x in LotSpots(r, l) <==> x in LotSpots(spots, l)
      {
      }
    }
  }

  /** Deleting a lot none of whose spots is Occupied, together with all its spots, keeps the
      keys fresh, every remaining spot pointing at a remaining lot, occupancy in step, and
      every remaining stored count in step when the counts were in step before. */
  lemma DeletePreserves(lots: map<int, ParkingLot>, spots: map<int, ParkingSpot>, reservations: map<int, Reservation>,
                        next: int, id: int)
    requires KeysBelow(spots, next) && OccupancyAgrees(spots, reservations) && SpotsReferenceLots(lots, spots)
    requires id in lots && LotSpotsWith(spots, id, Occupied) == {}
    ensures KeysBelow(WithoutLot(spots, id), next)
    ensures OccupancyAgrees(WithoutLot(spots, id), reservations)
    ensures SpotsReferenceLots(lots - {id}, WithoutLot(spots, id))
    ensures CountsAgree(lots, spots) ==> CountsAgree(lots - {id}, WithoutLot(spots, id))
  {
    var spots' := WithoutLot(spots, id);
    forall s | s in spots && spots[s].lotId == id
      ensures spots[s].status == Available
    {
      assert s !in LotSpotsWith(spots, id, Occupied);
    }
    forall l | l in lots - {id}
      ensures LotSpots(spots', l) == LotSpots(spots, l)
    {
      forall x
        ensures x in LotSpots(spots', l) <==> x in LotSpots(spots, l)
      {
      }
    }
  }

  datatype LotDeleted = LotDeleted

  /** ParkingLOTDeleter.delete: 404 for an unknown lot, 400 with nothing removed while any
      spot of the lot is Occupied; otherwise the lot and all its spots are removed together,
      and the spots of every other lot stay as they were. */
  method DeleteLot(db: Database, caller: int, lotId: int) returns (out: Outcome<LotDeleted>)
    requires db.Valid() && db.CallerHasRole(caller, "admin")
    modifies db`lots, db`spots
    ensures db.Valid()
    ensures out.Fail? ==> unchanged(db)
    ensures out == Fail(LotNotFound) <==> lotId !in old(db.lots)
    ensures out == Fail(LotOccupied) <==> lotId in old(db.lots) && old(LotSpotsWith(db.spots, lotId, Occupied)) != {}
    ensures out.Ok? <==> lotId in old(db.lots) && old(LotSpotsWith(db.spots, lotId, Occupied)) == {}
    ensures out.Ok? ==> db.lots == old(db.lots) - {lotId} && db.spots == WithoutLot(old(db.spots), lotId)
    ensures old(db.SpotCountsAgree()) ==> db.SpotCountsAgree()
  {
    if lotId !in db.lots {
      return Fail(LotNotFound);
    }
    var occupied := LotSpotsWith(db.spots, lotId, Occupied);
    if |occupied| > 0 {
      return Fail(LotOccupied);
    }
    DeletePreserves(db.lots, db.spots, db.reservations, db.nextSpotId, lotId);
    db.spots := WithoutLot(db.spots, lotId);
    db.lots := db.lots - {lotId};
    out := Ok(LotDeleted);
  }
}
