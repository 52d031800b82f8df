/** Handler sequences whose outcomes follow from the handlers' contracts alone: a lot with
    two spots fills up, refuses a third car, bills an hour at its hourly price, refuses a
    second release of the same spot and hands that spot to the next car. */
module Scenarios {
  import opened Common
  import opened Models
  import opened Responses
  import opened Billing
  import opened Store
  import AdminApis
  import UserApis

  /** A new lot created with two spots has exactly those two Available. */
  lemma NewLotAvailable(lots: map<int, ParkingLot>, spots: map<int, ParkingSpot>, lotId: int, from: int)
    requires SpotsReferenceLots(lots, spots) && lotId !in lots
    requires forall k :: k in spots ==> k < from
    ensures LotSpotsWith(AdminApis.WithNewSpots(spots, lotId, from, 2), lotId, Available) == {from, from + 1}
  {
    var after := AdminApis.WithNewSpots(spots, lotId, from, 2);
    AdminApis.WithNewSpotsShape(spots, lotId, from, 2);
    forall x
      ensures x in LotSpotsWith(after, lotId, Available) <==> x == from || x == from + 1
    {
      if x in spots {
        assert spots[x].lotId in lots;
      }
    }
  }

  /** Setting one spot's status moves it in or out of its lot's Available set and nothing else. */
  lemma SetStatusAvailable(spots: map<int, ParkingSpot>, lotId: int, s: int, st: SpotStatus)
    requires s in spots && spots[s].lotId == lotId
    ensures st == Occupied ==>
              LotSpotsWith(spots[s := ParkingSpot(lotId, st)], lotId, Available) == LotSpotsWith(spots, lotId, Available) - {s}
    ensures st == Available ==>
              LotSpotsWith(spots[s := ParkingSpot(lotId, st)], lotId, Available) == LotSpotsWith(spots, lotId, Available) + {s}
  {
    var after := spots[s := ParkingSpot(lotId, st)];
    forall x
      ensures x in LotSpotsWith(after, lotId, Available) <==>
                (x in LotSpotsWith(spots, lotId, Available) && x != s) || (x == s && st == Available)
    {
    }
  }

  /** Under OccupancyAgrees, an active reservation is the only active one on its spot. */
  lemma OnlyActive(spots: map<int, ParkingSpot>, reservations: map<int, Reservation>, id: int)
    requires OccupancyAgrees(spots, reservations)
    requires id in reservations && reservations[id].status == Active
    ensures UserApis.CallerActiveOn(reservations, reservations[id].userId, reservations[id].spotId) == {id}
  {
    var res := reservations[id];
    var a := UserApis.CallerActiveOn(reservations, res.userId, res.spotId);
    forall x
      ensures x in a <==> x == id
    {
    }
  }

  /** Creating a lot with two spots: both of its spots are Available. */
  method OpenTwoSpotLot(db: Database, admin: int) returns (lot: int, from: int)
    requires db.Valid() && db.CallerHasRole(admin, "admin")
    modifies db`lots, db`nextLotId, db`spots, db`nextSpotId
    ensures db.Valid()
    ensures lot in db.lots && db.lots[lot].price == 1000
    ensures LotSpotsWith(db.spots, lot, Available) == {from, from + 1}
  {
    ghost var spots0 := db.spots;
    from := db.nextSpotId;
    var created := AdminApis.CreateLot(db, admin, Some("Central"), Some(1000), Some("560001"), Some(2));
    lot := created.value.lotId;
    NewLotAvailable(old(db.lots), spots0, lot, from);
  }

  /** Reserving in that lot three times: the first two succeed, the first taking the lower
      spot id, and the third is refused for want of an Available spot. */
  method FillTwoSpotLot(db: Database, admin: int, user: int, t: int)
    returns (lot: int, first: int, firstId: int, third: Outcome<UserApis.Reserved>)
    requires db.Valid() && db.CallerHasRole(admin, "admin") && db.CallerHasRole(user, "user")
    modifies db`lots, db`nextLotId, db`spots, db`nextSpotId, db`reservations, db`nextReservationId
    ensures db.Valid() && db.CallerHasRole(user, "user")
    ensures third == Fail(NoAvailableSpots)
    ensures lot in db.lots && db.lots[lot].price == 1000
    ensures first in db.spots && db.spots[first] == ParkingSpot(lot, Occupied)
    ensures LotSpotsWith(db.spots, lot, Available) == {}
    ensures firstId in db.reservations && db.reservations[firstId] == NewReservation(user, first, t)
  {
    var from;
    lot, from := OpenTwoSpotLot(db, admin);
    assert Least({from, from + 1}) == from;

    firstId := db.nextReservationId;
    ghost var spots1 := db.spots;
    var r1 := UserApis.ReserveSpot(db, user, Some(lot), t);
    first := r1.value.spotNumber;
    assert first == from;
    SetStatusAvailable(spots1, lot, first, Occupied);
    assert LotSpotsWith(db.spots, lot, Available) == {from + 1};
    assert Least({from + 1}) == from + 1;

    ghost var spots2 := db.spots;
    var r2 := UserApis.ReserveSpot(db, user, Some(lot), t);
    SetStatusAvailable(spots2, lot, from + 1, Occupied);
    third := UserApis.ReserveSpot(db, user, Some(lot), t);
  }

  /** Releasing the caller's only car on a spot after one hour bills one hour at the lot's
      price; releasing the same spot again is refused; and a new reservation in the lot, which
      had no other Available spot, gets that spot back. */
  method ReleaseAndRebook(db: Database, user: int, lot: int, s: int, id: int, t: int)
    returns (cost: int, again: Outcome<UserApis.Released>, next: Outcome<UserApis.Reserved>)
    requires db.Valid() && db.CallerHasRole(user, "user")
    requires lot in db.lots && s in db.spots && db.spots[s].lotId == lot
    requires LotSpotsWith(db.spots, lot, Available) == {}
    requires id in db.reservations && db.reservations[id] == NewReservation(user, s, t)
    modifies db`spots, db`reservations, db`nextReservationId
    ensures cost == db.lots[lot].price
    ensures again == Fail(NoActiveReservation)
    ensures next.Ok? && next.value.spotNumber == s
  {
    OnlyActive(db.spots, db.reservations, id);
    assert Least({id}) == id;
    assert HoldsActive(db.reservations, user, s);
    ghost var spots0 := db.spots;
    var released := UserApis.ReleaseSpot(db, user, Some(s), t + SecondsPerHour);
    CostWholeHours(t, 1, db.lots[lot].price);
    cost := released.value.parkingCost;
    SetStatusAvailable(spots0, lot, s, Available);
    assert Least({s}) == s;

    again := UserApis.ReleaseSpot(db, user, Some(s), t + 2 * SecondsPerHour);
    next := UserApis.ReserveSpot(db, user, Some(lot), t + 3 * SecondsPerHour);
  }

  /** The two steps in sequence on one database. */
  method TwoSpotLot(db: Database, admin: int, user: int, t: int)
    returns (third: Outcome<UserApis.Reserved>, cost: int, again: Outcome<UserApis.Released>, fourth: Outcome<UserApis.Reserved>)
    requires db.Valid() && db.CallerHasRole(admin, "admin") && db.CallerHasRole(user, "user")
    modifies db`lots, db`nextLotId, db`spots, db`nextSpotId, db`reservations, db`nextReservationId
    ensures third == Fail(NoAvailableSpots)
    ensures cost == 1000
    ensures again == Fail(NoActiveReservation)
    ensures fourth.Ok?
  {
    var lot, first, firstId;
    lot, first, firstId, third := FillTwoSpotLot(db, admin, user, t);
    cost, again, fourth := ReleaseAndRebook(db, user, lot, first, firstId, t);
  }
}
