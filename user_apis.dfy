/** The parking user's handlers: reserving and releasing a spot (the allocation engine, with
    billing on release), and the read-only lot list, parking history and usage summary. Every
    handler runs only for a caller holding the "user" role; `caller` is that user's id. */
module UserApis {
  import opened Common
  import opened Models
  import opened Responses
  import opened Billing
  import opened Store
  import opened Bookings

  // ---------------------------------------------------------------------------------------
  // Reserve

  datatype Reserved = Reserved(lotId: int, spotNumber: int, parkingTime: int)

  /** Changing the status of one spot changes no lot's spot set. */
  lemma StatusChangeKeepsCounts(lots: map<int, ParkingLot>, spots: map<int, ParkingSpot>, s: int, st: SpotStatus)
    requires CountsAgree(lots, spots) && s in spots
    ensures CountsAgree(lots, spots[s := spots[s].(status := st)])
  {
    var spots' := spots[s := spots[s].(status := st)];
    forall l | l in lots
      ensures LotSpots(spots', l) == LotSpots(spots, l)
    {
      forall x
        ensures x in LotSpots(spots', l) <==> x in LotSpots(spots, l)
      {
      }
    }
  }

  /** Occupying an Available spot with a fresh active reservation keeps occupancy in step:
      no active reservation referenced the spot before, and exactly the new one does after. */
  lemma ReserveKeepsOccupancy(spots: map<int, ParkingSpot>, reservations: map<int, Reservation>,
                              s: int, id: int, userId: int, now: int)
    requires OccupancyAgrees(spots, reservations)
    requires s in spots && spots[s].status == Available && id !in reservations
    ensures OccupancyAgrees(spots[s := spots[s].(status := Occupied)], reservations[id := NewReservation(userId, s, now)])
  {
    var spots', reservations' := spots[s := spots[s].(status := Occupied)], reservations[id := NewReservation(userId, s, now)];
    OccupiedIffOneActive(spots, reservations, s);
    forall r | r in reservations && reservations[r].status == Active
      ensures reservations[r].spotId != s
    {
      assert r in ActiveOn(reservations, reservations[r].spotId);
    }
    forall x | x in spots' && spots'[x].status == Occupied
      ensures exists r :: r in reservations' && reservations'[r].status == Active && reservations'[r].spotId == x
    {
      if x == s {
        assert reservations'[id].spotId == x;
      } else {
        var r :| r in reservations && reservations[r].status == Active && reservations[r].spotId == x;
        assert reservations'[r] == reservations[r];
      }
    }
  }

  /** User_ReserveSpot.post (the definition that is routed): a missing or zero lot_id is
      refused; otherwise the lowest-id Available spot of the lot is Occupied and a new active
      reservation of the caller starting now is opened on it. A lot with no Available spot,
      or no such lot, is refused with nothing changed. A caller may hold several
      reservations at once. */
  method ReserveSpot(db: Database, caller: int, lotId: Option<int>, now: int) returns (out: Outcome<Reserved>)
    requires db.Valid() && db.CallerHasRole(caller, "user")
    modifies db`spots, db`reservations, db`nextReservationId
    ensures db.Valid()
    ensures old(db.SpotCountsAgree()) ==> db.SpotCountsAgree()
    ensures out.Fail? ==> unchanged(db)
    ensures out == Fail(FieldRequired("lot_id")) <==> lotId.None? || lotId.value == 0
    ensures out == Fail(NoAvailableSpots) <==>
              lotId.Some? && lotId.value != 0 && old(LotSpotsWith(db.spots, lotId.value, Available)) == {}
    ensures out.Ok? <==>
              lotId.Some? && lotId.value != 0 && old(LotSpotsWith(db.spots, lotId.value, Available)) != {}
    ensures out.Ok? ==>
              var l, s, id := lotId.value, out.value.spotNumber, old(db.nextReservationId);
              && lotId.Some? && old(LotSpotsWith(db.spots, l, Available)) != {}
              && s == Least(old(LotSpotsWith(db.spots, l, Available)))
              && out.value == Reserved(l, s, now)
              && db.spots == old(db.spots)[s := ParkingSpot(l, Occupied)]
              && id !in old(db.reservations)
              && db.reservations == old(db.reservations)[id := NewReservation(caller, s, now)]
  {
    if lotId.None? || lotId.value == 0 {
      return Fail(FieldRequired("lot_id"));
    }
    var l := lotId.value;
    var available := LotSpotsWith(db.spots, l, Available);
    if available == {} {
      return Fail(NoAvailableSpots);
    }
    var s := Least(available);
    var id := db.nextReservationId;
    assert db.spots[s] == ParkingSpot(l, Available);
    ReserveKeepsOccupancy(db.spots, db.reservations, s, id, caller, now);
    if db.SpotCountsAgree() {
      StatusChangeKeepsCounts(db.lots, db.spots, s, Occupied);
    }
    db.spots := db.spots[s := ParkingSpot(l, Occupied)];
    db.reservations := db.reservations[id := NewReservation(caller, s, now)];
    db.nextReservationId := id + 1;
    out := Ok(Reserved(l, s, now));
  }

  // ---------------------------------------------------------------------------------------
  // Release

  datatype Released = Released(spotId: int, exitTime: int, parkingCost: int)

  /** The caller's active reservations on a spot (at most one while occupancy agrees). */
  function CallerActiveOn(reservations: map<int, Reservation>, userId: int, spotId: int): (a: set<int>)
    ensures a == {} <==> !HoldsActive(reservations, userId, spotId)
  {
    var a := set r | r in reservations && reservations[r].userId == userId && reservations[r].spotId == spotId
                     && reservations[r].status == Active;
    assert a != {} ==> HoldsActive(reservations, userId, spotId) by {
      if a != {} {
        Inhabited(a);
        var r :| r in a;
      }
    }
    assert HoldsActive(reservations, userId, spotId) ==> a != {} by {
      if HoldsActive(reservations, userId, spotId) {
        var r :| r in reservations && reservations[r].userId == userId && reservations[r].spotId == spotId
                 && reservations[r].status == Active;
        assert r in a;
      }
    }
    a
  }

  /** The reservation as the release leaves it: closed now, billed, and completed. */
  function Closed(res: Reservation, exitTime: int, cost: int): Reservation
  {
    res.(exitTime := Some(exitTime), parkingCost := cost, status := Completed)
  }

  /** Completing the one active reservation of a spot and freeing the spot keeps occupancy in
      step, and afterwards nobody holds an active reservation on that spot. */
  lemma ReleaseKeepsOccupancy(spots: map<int, ParkingSpot>, reservations: map<int, Reservation>,
                              r: int, exitTime: int, cost: int)
    requires OccupancyAgrees(spots, reservations)
    requires r in reservations && reservations[r].status == Active
    ensures var s := reservations[r].spotId;
      var spots', reservations' := spots[s := spots[s].(status := Available)], reservations[r := Closed(reservations[r], exitTime, cost)];
      && OccupancyAgrees(spots', reservations')
      && forall u :: !HoldsActive(reservations', u, s)
  {
    var s := reservations[r].spotId;
    var spots' := spots[s := spots[s].(status := Available)];
    var reservations' := reservations[r := Closed(reservations[r], exitTime, cost)];
    forall x | x in spots' && spots'[x].status == Occupied
      ensures exists y :: y in reservations' && reservations'[y].status == Active && reservations'[y].spotId == x
    {
      var y :| y in reservations && reservations[y].status == Active && reservations[y].spotId == x;
      assert y != r;
      assert reservations'[y] == reservations[y];
    }
    forall x | x in reservations' && reservations'[x].spotId == s
      ensures reservations'[x].status != Active
    {
      if x != r {
        assert reservations'[x] == reservations[x];
      }
    }
  }

  /** User_ReleaseSpot.post: a missing or zero spot_id is refused; without an active
      reservation of the caller on that spot the answer is 404 with nothing changed (so a
      second release of the same spot fails). Otherwise that reservation is closed now and
      billed at its lot's price by Cost, and the spot becomes Available again; no other spot,
      reservation or lot changes. */
  method ReleaseSpot(db: Database, caller: int, spotId: Option<int>, now: int) returns (out: Outcome<Released>)
    requires db.Valid() && db.CallerHasRole(caller, "user")
    modifies db`spots, db`reservations
    ensures db.Valid()
    ensures old(db.SpotCountsAgree()) ==> db.SpotCountsAgree()
    ensures out.Fail? ==> unchanged(db)
    ensures out == Fail(FieldRequired("spot_id")) <==> spotId.None? || spotId.value == 0
    ensures out == Fail(NoActiveReservation) <==>
              spotId.Some? && spotId.value != 0 && !old(HoldsActive(db.reservations, caller, spotId.value))
    ensures out.Ok? <==>
              spotId.Some? && spotId.value != 0 && old(HoldsActive(db.reservations, caller, spotId.value))
    ensures out.Ok? ==>
              var s := spotId.value;
              var r := Least(old(CallerActiveOn(db.reservations, caller, s)));
              var res := old(db.reservations[r]);
              var cost := Cost(res.parkingTime, now, old(db.lots[db.spots[s].lotId].price));
              && s in old(db.spots) && old(db.spots[s].lotId) in old(db.lots)
              && out.value == Released(s, now, cost)
              && db.reservations == old(db.reservations)[r := Closed(res, now, cost)]
              && db.spots == old(db.spots)[s := old(db.spots[s]).(status := Available)]
              && !HoldsActive(db.reservations, caller, s)
  {
    if spotId.None? || spotId.value == 0 {
      return Fail(FieldRequired("spot_id"));
    }
    var s := spotId.value;
    var mine := CallerActiveOn(db.reservations, caller, s);
    if mine == {} {
      return Fail(NoActiveReservation);
    }
    var r := Least(mine);
    var res := db.reservations[r];
    var spot := db.spots[s];
    var lot := db.lots[spot.lotId];
    var cost := Cost(res.parkingTime, now, lot.price);
    ReleaseKeepsOccupancy(db.spots, db.reservations, r, now, cost);
    if db.SpotCountsAgree() {
      StatusChangeKeepsCounts(db.lots, db.spots, s, Available);
    }
    db.reservations := db.reservations[r := Closed(res, now, cost)];
    db.spots := db.spots[s := spot.(status := Available)];
    out := Ok(Released(s, now, cost));
  }

  // ---------------------------------------------------------------------------------------
  // View lots

  datatype LotListing = LotListing(lotId: int, locationName: string, price: int, totalSpots: int, availableSpots: int)

  /** One entry of User_ViewLots.get: the total is the stored number_of_spots, the available
      figure counts the lot's Available spots. */
  function LotListingOf(lots: map<int, ParkingLot>, spots: map<int, ParkingSpot>, id: int): (e: LotListing)
    requires id in lots
    ensures e.lotId == id && e.locationName == lots[id].locationName && e.price == lots[id].price
    ensures e.totalSpots == lots[id].numberOfSpots
    ensures e.availableSpots == |LotSpotsWith(spots, id, Available)|
  {
    LotListing(id, lots[id].locationName, lots[id].price, lots[id].numberOfSpots, |LotSpotsWith(spots, id, Available)|)
  }

  /** While the stored counts are in step, a lot never shows more Available spots than it
      has, and the difference is exactly its number of Occupied spots. */
  lemma ListingWithinTotal(lots: map<int, ParkingLot>, spots: map<int, ParkingSpot>, id: int)
    requires id in lots && CountsAgree(lots, spots)
    ensures var e := LotListingOf(lots, spots, id);
      0 <= e.availableSpots <= e.totalSpots && e.totalSpots - e.availableSpots == |LotSpotsWith(spots, id, Occupied)|
  {
    LotSpotsPartition(spots, id);
  }

  /** The entries of the listed lots, in the order listed. */
  function ListingsOf(lots: map<int, ParkingLot>, spots: map<int, ParkingSpot>, ids: seq<int>): (r: seq<LotListing>)
    requires forall i :: 0 <= i < |ids| ==> ids[i] in lots
    ensures |r| == |ids| && forall i :: 0 <= i < |r| ==> r[i] == LotListingOf(lots, spots, ids[i])
  {
    seq(|ids|, i requires 0 <= i < |ids| => LotListingOf(lots, spots, ids[i]))
  }

  /** `r` lists every lot exactly once, in ascending id order, each with its entry. */
  ghost predicate ListsEveryListing(lots: map<int, ParkingLot>, spots: map<int, ParkingSpot>, r: seq<LotListing>)
  {
    && |r| == |lots|
    && (forall i :: 0 <= i < |r| ==> r[i].lotId in lots && r[i] == LotListingOf(lots, spots, r[i].lotId))
    && (forall i, j :: 0 <= i < j < |r| ==> r[i].lotId < r[j].lotId)
    && (forall l :: l in lots ==> exists i :: 0 <= i < |r| && r[i].lotId == l)
  }

  /** Listing the lots in ascending id order lists every lot exactly once. */
  lemma ListingsListEveryLot(lots: map<int, ParkingLot>, spots: map<int, ParkingSpot>)
    ensures ListsEveryListing(lots, spots, ListingsOf(lots, spots, Ascending(lots.Keys)))
  {
    var ids := Ascending(lots.Keys);
    var r := ListingsOf(lots, spots, ids);
    forall i | 0 <= i < |r|
      ensures r[i].lotId == ids[i]
    {
      assert r[i] == LotListingOf(lots, spots, ids[i]);
    }
    forall l | l in lots
      ensures exists i :: 0 <= i < |r| && r[i].lotId == l
    {
      assert l in ids;
      var i :| 0 <= i < |ids| && ids[i] == l;
      assert r[i].lotId == l;
    }
  }

  /** User_ViewLots.get: every lot exactly once, in ascending id order. */
  function ViewLots(lots: map<int, ParkingLot>, spots: map<int, ParkingSpot>): (r: seq<LotListing>)
    ensures ListsEveryListing(lots, spots, r)
  {
    ListingsListEveryLot(lots, spots);
    ListingsOf(lots, spots, Ascending(lots.Keys))
  }

  // ---------------------------------------------------------------------------------------
  // Parking history

  datatype HistoryRecord = HistoryRecord(reservationId: int, lotName: Option<string>, spotId: Option<int>,
                                         parkingTime: int, exitTime: Option<int>, status: ReservationStatus,
                                         parkingCost: int)

  /** The ids of all reservations of a user. */
  function ReservationsOf(reservations: map<int, Reservation>, userId: int): (ids: set<int>)
    ensures ids <= reservations.Keys
    ensures forall r :: r in ids <==> r in reservations && reservations[r].userId == userId
  {
    set r | r in reservations && reservations[r].userId == userId
  }

  /** One row of the history; the spot and lot parts are absent when the spot no longer
      exists, the lot part when the lot no longer exists. */
  function HistoryOf(lots: map<int, ParkingLot>, spots: map<int, ParkingSpot>,
                     reservations: map<int, Reservation>, r: int): (h: HistoryRecord)
    requires r in reservations
    ensures var res := reservations[r];
      && h.reservationId == r && h.parkingTime == res.parkingTime && h.exitTime == res.exitTime
      && h.status == res.status && h.parkingCost == res.parkingCost
      && (h.spotId.Some? <==> res.spotId in spots) && (h.spotId.Some? ==> h.spotId.value == res.spotId)
      && (h.lotName.Some? <==> res.spotId in spots && spots[res.spotId].lotId in lots)
      && (h.lotName.Some? ==> h.lotName.value == lots[spots[res.spotId].lotId].locationName)
  {
    var res := reservations[r];
    var spot := if res.spotId in spots then Some(res.spotId) else None;
    var lot := if res.spotId in spots && spots[res.spotId].lotId in lots then Some(lots[spots[res.spotId].lotId].locationName) else None;
    HistoryRecord(r, lot, spot, res.parkingTime, res.exitTime, res.status, res.parkingCost)
  }

  /** The rows of the listed reservations, in the order listed. */
  function HistoriesOf(lots: map<int, ParkingLot>, spots: map<int, ParkingSpot>,
                       reservations: map<int, Reservation>, ids: seq<int>): (rows: seq<HistoryRecord>)
    requires AllReservations(reservations, ids)
    ensures |rows| == |ids| && forall i :: 0 <= i < |rows| ==> rows[i] == HistoryOf(lots, spots, reservations, ids[i])
  {
    seq(|ids|, i requires 0 <= i < |ids| => HistoryOf(lots, spots, reservations, ids[i]))
  }

  /** The history lists each of the user's reservations exactly once, nobody else's, newest
      first. */
  lemma HistoryListsOwnReservations(lots: map<int, ParkingLot>, spots: map<int, ParkingSpot>,
                                    reservations: map<int, Reservation>, userId: int)
    ensures var rows := HistoriesOf(lots, spots, reservations, NewestFirstOf(reservations, ReservationsOf(reservations, userId)));
      && |rows| == |ReservationsOf(reservations, userId)|
      && (forall i :: 0 <= i < |rows| ==>
            && rows[i].reservationId in reservations && reservations[rows[i].reservationId].userId == userId
            && rows[i] == HistoryOf(lots, spots, reservations, rows[i].reservationId))
      && (forall i, j :: 0 <= i < j < |rows| ==> rows[i].parkingTime >= rows[j].parkingTime)
      && (forall r :: r in reservations && reservations[r].userId == userId ==>
            exists i :: 0 <= i < |rows| && rows[i].reservationId == r)
  {
    var mine := ReservationsOf(reservations, userId);
    var ids := NewestFirstOf(reservations, mine);
    var rows := HistoriesOf(lots, spots, reservations, ids);
    forall i | 0 <= i < |rows|
      ensures rows[i].reservationId == ids[i] && rows[i].parkingTime == reservations[ids[i]].parkingTime
      ensures ids[i] in mine
    {
      assert rows[i] == HistoryOf(lots, spots, reservations, ids[i]);
      assert ids[i] in multiset(ids);
    }
    forall r | r in reservations && reservations[r].userId == userId
      ensures exists i :: 0 <= i < |rows| && rows[i].reservationId == r
    {
      assert r in mine;
      assert multiset(ids)[r] == 1;
      assert r in ids;
      var i :| 0 <= i < |ids| && ids[i] == r;
      assert rows[i].reservationId == r;
    }
  }

  /** User_ParkHistory.get: the caller's reservations, newest first. */
  function ParkHistory(lots: map<int, ParkingLot>, spots: map<int, ParkingSpot>,
                       reservations: map<int, Reservation>, caller: int): (rows: seq<HistoryRecord>)
    ensures |rows| == |ReservationsOf(reservations, caller)|
    ensures forall i :: 0 <= i < |rows| ==>
              && rows[i].reservationId in reservations && reservations[rows[i].reservationId].userId == caller
              && rows[i] == HistoryOf(lots, spots, reservations, rows[i].reservationId)
    ensures forall i, j :: 0 <= i < j < |rows| ==> rows[i].parkingTime >= rows[j].parkingTime
    ensures forall r :: r in reservations && reservations[r].userId == caller ==>
              exists i :: 0 <= i < |rows| && rows[i].reservationId == r
  {
    HistoryListsOwnReservations(lots, spots, reservations, caller);
    HistoriesOf(lots, spots, reservations, NewestFirstOf(reservations, ReservationsOf(reservations, caller)))
  }

  // ---------------------------------------------------------------------------------------
  // Summary

  /** The usage summary. Parked time is kept in seconds; the handler reports it in hours. */
  datatype UsageSummary = UsageSummary(totalParks: int, parkedSeconds: int, totalCost: int, lotUsage: map<string, int>)

  /** What one reservation adds to the running totals: only a reservation with an exit time
      counts, and it counts toward the lot usage only while its spot and lot still exist. */
  function SummaryStep(lots: map<int, ParkingLot>, spots: map<int, ParkingSpot>, acc: UsageSummary, res: Reservation): UsageSummary
  {
    if res.exitTime.None? then acc
    else
      var usage :=
        if res.spotId in spots && spots[res.spotId].lotId in lots then
          var name := lots[spots[res.spotId].lotId].locationName;
          acc.lotUsage[name := (if name in acc.lotUsage then acc.lotUsage[name] else 0) + 1]
        else acc.lotUsage;
      UsageSummary(acc.totalParks, acc.parkedSeconds + (res.exitTime.value - res.parkingTime),
                   acc.totalCost + res.parkingCost, usage)
  }

  /** The running totals after the listed reservations, taken in order. */
  function SummaryFold(lots: map<int, ParkingLot>, spots: map<int, ParkingSpot>,
                       reservations: map<int, Reservation>, ids: seq<int>, totalParks: int): UsageSummary
    requires AllReservations(reservations, ids)
  {
    if ids == [] then UsageSummary(totalParks, 0, 0, map[])
    else SummaryStep(lots, spots, SummaryFold(lots, spots, reservations, ids[..|ids| - 1], totalParks), reservations[ids[|ids| - 1]])
  }

  /** The summary of a user's reservations, taken in ascending id order. */
  function SummaryOf(lots: map<int, ParkingLot>, spots: map<int, ParkingSpot>,
                     reservations: map<int, Reservation>, userId: int): UsageSummary
  {
    var ids := Ascending(ReservationsOf(reservations, userId));
    SummaryFold(lots, spots, reservations, ids, |ids|)
  }

  /** The number of listed reservations that have an exit time. */
  function ExitedCount(reservations: map<int, Reservation>, ids: seq<int>): (n: int)
    requires AllReservations(reservations, ids)
    ensures 0 <= n <= |ids|
  {
    if ids == [] then 0
    else ExitedCount(reservations, ids[..|ids| - 1]) + (if reservations[ids[|ids| - 1]].exitTime.Some? then 1 else 0)
  }

  /** What the running totals mean: the park count is the number given, every lot-usage
      entry is a lot's name counted at least once and at most once per reservation with an
      exit time, and the parked time is not negative when no listed reservation ends before
      it starts. */
  lemma {:induction false} SummaryFoldFacts(lots: map<int, ParkingLot>, spots: map<int, ParkingSpot>,
                                            reservations: map<int, Reservation>, ids: seq<int>, totalParks: int)
    requires AllReservations(reservations, ids)
    ensures var s := SummaryFold(lots, spots, reservations, ids, totalParks);
      && s.totalParks == totalParks
      && (forall name :: name in s.lotUsage ==>
            && 1 <= s.lotUsage[name] <= ExitedCount(reservations, ids)
            && exists l :: l in lots && lots[l].locationName == name)
      && ((forall i :: 0 <= i < |ids| && reservations[ids[i]].exitTime.Some? ==>
             reservations[ids[i]].parkingTime <= reservations[ids[i]].exitTime.value) ==> s.parkedSeconds >= 0)
  {
    if ids != [] {
      var prefix := ids[..|ids| - 1];
      assert AllReservations(reservations, prefix);
      SummaryFoldFacts(lots, spots, reservations, prefix, totalParks);
      var before := SummaryFold(lots, spots, reservations, prefix, totalParks);
      var s := SummaryFold(lots, spots, reservations, ids, totalParks);
      var res := reservations[ids[|ids| - 1]];
      assert s == SummaryStep(lots, spots, before, res);
      var n, n' := ExitedCount(reservations, prefix), ExitedCount(reservations, ids);
      assert n' == n + (if res.exitTime.Some? then 1 else 0);
      forall name | name in s.lotUsage
        ensures 1 <= s.lotUsage[name] <= n'
        ensures exists l :: l in lots && lots[l].locationName == name
      {
        if res.exitTime.Some? && res.spotId in spots && spots[res.spotId].lotId in lots
           && name == lots[spots[res.spotId].lotId].locationName {
          var l := spots[res.spotId].lotId;
          assert lots[l].locationName == name;
        } else {
          assert name in before.lotUsage && s.lotUsage[name] == before.lotUsage[name];
        }
      }
      if forall i :: 0 <= i < |ids| && reservations[ids[i]].exitTime.Some? ==>
           reservations[ids[i]].parkingTime <= reservations[ids[i]].exitTime.value {
        assert forall i :: 0 <= i < |prefix| ==> prefix[i] == ids[i];
      }
    }
  }

  /** The name of the lot of the spot a reservation references, when both rows still exist. */
  function LotNameOf(lots: map<int, ParkingLot>, spots: map<int, ParkingSpot>, res: Reservation): Option<string>
  {
    if res.spotId in spots && spots[res.spotId].lotId in lots then Some(lots[spots[res.spotId].lotId].locationName)
    else None
  }

  /** The summed cost of the listed reservations that have an exit time. */
  function ExitedCost(reservations: map<int, Reservation>, ids: seq<int>): int
    requires AllReservations(reservations, ids)
  {
    if ids == [] then 0
    else
      var res := reservations[ids[|ids| - 1]];
      ExitedCost(reservations, ids[..|ids| - 1]) + (if res.exitTime.Some? then res.parkingCost else 0)
  }

  /** The summed parked seconds of the listed reservations that have an exit time. */
  function ExitedSeconds(reservations: map<int, Reservation>, ids: seq<int>): int
    requires AllReservations(reservations, ids)
  {
    if ids == [] then 0
    else
      var res := reservations[ids[|ids| - 1]];
      ExitedSeconds(reservations, ids[..|ids| - 1]) + (if res.exitTime.Some? then res.exitTime.value - res.parkingTime else 0)
  }

  /** The number of listed reservations with an exit time whose spot's lot is named `name`. */
  function UsageCount(lots: map<int, ParkingLot>, spots: map<int, ParkingSpot>, reservations: map<int, Reservation>,
                      ids: seq<int>, name: string): nat
    requires AllReservations(reservations, ids)
  {
    if ids == [] then 0
    else
      var res := reservations[ids[|ids| - 1]];
      UsageCount(lots, spots, reservations, ids[..|ids| - 1], name)
      + (if res.exitTime.Some? && LotNameOf(lots, spots, res) == Some(name) then 1 else 0)
  }

  /** Only reservations with an exit time contribute to the totals: the cost and the parked
      time are their sums, and each lot-usage entry is present exactly for the lot names some
      of them are credited to, counting exactly those. */
  lemma {:induction false} SummaryFoldTotals(lots: map<int, ParkingLot>, spots: map<int, ParkingSpot>,
                                             reservations: map<int, Reservation>, ids: seq<int>, totalParks: int)
    requires AllReservations(reservations, ids)
    ensures var s := SummaryFold(lots, spots, reservations, ids, totalParks);
      && s.totalCost == ExitedCost(reservations, ids)
      && s.parkedSeconds == ExitedSeconds(reservations, ids)
      && (forall name :: name in s.lotUsage <==> UsageCount(lots, spots, reservations, ids, name) > 0)
      && (forall name :: name in s.lotUsage ==> s.lotUsage[name] == UsageCount(lots, spots, reservations, ids, name))
  {
    if ids != [] {
      var prefix := ids[..|ids| - 1];
      assert AllReservations(reservations, prefix);
      SummaryFoldTotals(lots, spots, reservations, prefix, totalParks);
      var before := SummaryFold(lots, spots, reservations, prefix, totalParks);
      var s := SummaryFold(lots, spots, reservations, ids, totalParks);
      var res := reservations[ids[|ids| - 1]];
      assert s == SummaryStep(lots, spots, before, res);
      forall name
        ensures name in s.lotUsage <==> UsageCount(lots, spots, reservations, ids, name) > 0
        ensures name in s.lotUsage ==> s.lotUsage[name] == UsageCount(lots, spots, reservations, ids, name)
      {
        assert UsageCount(lots, spots, reservations, ids, name) == UsageCount(lots, spots, reservations, prefix, name)
          + (if res.exitTime.Some? && LotNameOf(lots, spots, res) == Some(name) then 1 else 0);
      }
    }
  }

  /** The summary of a user counts every reservation of that user as a park, and credits
      each lot-usage entry to an existing lot's name, at least once and at most once per
      reservation of the user. The cost, the parked time and the lot usage come from the
      reservations with an exit time alone. */
  lemma SummaryOfFacts(lots: map<int, ParkingLot>, spots: map<int, ParkingSpot>,
                       reservations: map<int, Reservation>, userId: int)
    ensures var s := SummaryOf(lots, spots, reservations, userId);
      var ids := Ascending(ReservationsOf(reservations, userId));
      && AllReservations(reservations, ids)
      && s.totalParks == |ReservationsOf(reservations, userId)|
      && s.totalCost == ExitedCost(reservations, ids)
      && s.parkedSeconds == ExitedSeconds(reservations, ids)
      && (forall name :: name in s.lotUsage <==> UsageCount(lots, spots, reservations, ids, name) > 0)
      && forall name :: name in s.lotUsage ==>
           && s.lotUsage[name] == UsageCount(lots, spots, reservations, ids, name)
           && 1 <= s.lotUsage[name] <= |ReservationsOf(reservations, userId)|
           && exists l :: l in lots && lots[l].locationName == name
  {
    var ids := Ascending(ReservationsOf(reservations, userId));
    SummaryFoldFacts(lots, spots, reservations, ids, |ids|);
    SummaryFoldTotals(lots, spots, reservations, ids, |ids|);
  }

  /** Taking one more reservation of the list applies one step to the running totals. */
  lemma SummaryFoldExtend(lots: map<int, ParkingLot>, spots: map<int, ParkingSpot>,
                          reservations: map<int, Reservation>, ids: seq<int>, i: int, totalParks: int)
    requires AllReservations(reservations, ids) && 0 <= i < |ids|
    ensures SummaryFold(lots, spots, reservations, ids[..i + 1], totalParks)
            == SummaryStep(lots, spots, SummaryFold(lots, spots, reservations, ids[..i], totalParks), reservations[ids[i]])
  {
    assert ids[..i + 1][..i] == ids[..i];
  }

  /** User_Summary.get: the caller's reservations, taken in ascending id order, folded into
      the running totals. */
  method UserSummary(db: Database, caller: int) returns (s: UsageSummary)
    requires db.CallerHasRole(caller, "user")
    ensures s == SummaryOf(db.lots, db.spots, db.reservations, caller)
  {
    var ids := Ascending(ReservationsOf(db.reservations, caller));
    s := FoldSummary(db.lots, db.spots, db.reservations, ids, |ids|);
  }

  /** The accumulator loop of User_Summary.get over the listed reservations. */
  method FoldSummary(lots: map<int, ParkingLot>, spots: map<int, ParkingSpot>,
                     reservations: map<int, Reservation>, ids: seq<int>, totalParks: int)
    returns (s: UsageSummary)
    requires AllReservations(reservations, ids)
    ensures s == SummaryFold(lots, spots, reservations, ids, totalParks)
  {
    s := UsageSummary(totalParks, 0, 0, map[]);
    var i := 0;
    while i < |ids|
      invariant 0 <= i <= |ids|
      invariant s == SummaryFold(lots, spots, reservations, ids[..i], totalParks)
    {
      var res := reservations[ids[i]];
      SummaryFoldExtend(lots, spots, reservations, ids, i, totalParks);
      ghost var next := SummaryStep(lots, spots, s, res);
      if res.exitTime.Some? {
        var usage := s.lotUsage;
        if res.spotId in spots && spots[res.spotId].lotId in lots {
          var name := lots[spots[res.spotId].lotId].locationName;
          var before := if name in usage then usage[name] else 0;
          usage := usage[name := before + 1];
        }
        assert usage == next.lotUsage;
        s := UsageSummary(s.totalParks, s.parkedSeconds + (res.exitTime.value - res.parkingTime),
                          s.totalCost + res.parkingCost, usage);
      }
      i := i + 1;
    }
    assert ids[..|ids|] == ids;
  }
}
