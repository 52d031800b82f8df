/** The administrator's read-only handlers: the lot viewer, the user viewer, the dashboard
    summary, the list of all bookings and the revenue of each lot. Each is a function of the
    tables; `query.all()` without ORDER BY returns rows in ascending id order. */
module AdminViews {
  import opened Common
  import opened Models
  import opened Bookings

  // ---------------------------------------------------------------------------------------
  // Lot viewer

  datatype SpotView = SpotView(spotId: int, status: SpotStatus)

  datatype LotView = LotView(lotId: int, locationName: string, price: int, totalSpots: int,
                             availableSpots: int, occupiedSpots: int, spots: seq<SpotView>)

  /** The listed spots with their statuses. */
  function SpotViews(spots: map<int, ParkingSpot>, ids: seq<int>): (r: seq<SpotView>)
    requires forall i :: 0 <= i < |ids| ==> ids[i] in spots
    ensures |r| == |ids|
    ensures forall i :: 0 <= i < |r| ==> r[i].spotId == ids[i] && r[i].status == spots[ids[i]].status
  {
    seq(|ids|, i requires 0 <= i < |ids| => SpotView(ids[i], spots[ids[i]].status))
  }

  /** One entry of ParkingLOTViewer.get: the total counts the lot's spot rows, the
      Available count is counted, and the Occupied count is the difference, which is exactly
      the number of the lot's Occupied spots; every spot of the lot is listed once with its
      status, in ascending id order. */
  function LotViewOf(lots: map<int, ParkingLot>, spots: map<int, ParkingSpot>, id: int): (v: LotView)
    requires id in lots
    ensures v.lotId == id && v.locationName == lots[id].locationName && v.price == lots[id].price
    ensures v.totalSpots == |LotSpots(spots, id)|
    ensures v.availableSpots + v.occupiedSpots == v.totalSpots
    ensures v.availableSpots == |LotSpotsWith(spots, id, Available)|
    ensures v.occupiedSpots == |LotSpotsWith(spots, id, Occupied)|
    ensures |v.spots| == v.totalSpots
    ensures forall i :: 0 <= i < |v.spots| ==>
              v.spots[i].spotId in LotSpots(spots, id) && v.spots[i].status == spots[v.spots[i].spotId].status
    ensures forall i, j :: 0 <= i < j < |v.spots| ==> v.spots[i].spotId < v.spots[j].spotId
  {
    var ids := Ascending(LotSpots(spots, id));
    var available := |LotSpotsWith(spots, id, Available)|;
    LotSpotsPartition(spots, id);
    assert forall i :: 0 <= i < |ids| ==> ids[i] in ids;
    LotView(id, lots[id].locationName, lots[id].price, |ids|, available, |ids| - available, SpotViews(spots, ids))
  }

  /** The entries of the listed lots, in the order listed. */
  function LotViewsOf(lots: map<int, ParkingLot>, spots: map<int, ParkingSpot>, ids: seq<int>): (r: seq<LotView>)
    requires forall i :: 0 <= i < |ids| ==> ids[i] in lots
    ensures |r| == |ids| && forall i :: 0 <= i < |r| ==> r[i] == LotViewOf(lots, spots, ids[i])
  {
    seq(|ids|, i requires 0 <= i < |ids| => LotViewOf(lots, spots, ids[i]))
  }

  /** `r` lists every lot exactly once, in ascending id order, each with its view. */
  ghost predicate ListsEveryLot(lots: map<int, ParkingLot>, spots: map<int, ParkingSpot>, r: seq<LotView>)
  {
    && |r| == |lots|
    && (forall i :: 0 <= i < |r| ==> r[i].lotId in lots && r[i] == LotViewOf(lots, spots, r[i].lotId))
    && (forall i, j :: 0 <= i < j < |r| ==> r[i].lotId < r[j].lotId)
    && (forall l :: l in lots ==> exists i :: 0 <= i < |r| && r[i].lotId == l)
  }

  /** Listing the lots in ascending id order lists every lot exactly once. */
  lemma LotViewsListEveryLot(lots: map<int, ParkingLot>, spots: map<int, ParkingSpot>)
    ensures ListsEveryLot(lots, spots, LotViewsOf(lots, spots, Ascending(lots.Keys)))
  {
    var ids := Ascending(lots.Keys);
    var r := LotViewsOf(lots, spots, ids);
    forall i | 0 <= i < |r|
      ensures r[i].lotId == ids[i]
    {
      assert r[i] == LotViewOf(lots, spots, ids[i]);
    }
    forall l | l in lots
      ensures exists i :: 0 <= i < |r| && r[i].lotId == l
    {
      assert l in ids;
      var i :| 0 <= i < |ids| && ids[i] == l;
      assert r[i].lotId == l;
    }
  }

  /** ParkingLOTViewer.get: every lot exactly once, in ascending id order. */
  function ViewLots(lots: map<int, ParkingLot>, spots: map<int, ParkingSpot>): (r: seq<LotView>)
    ensures ListsEveryLot(lots, spots, r)
  {
    LotViewsListEveryLot(lots, spots);
    LotViewsOf(lots, spots, Ascending(lots.Keys))
  }

  // ---------------------------------------------------------------------------------------
  // User viewer

  datatype UserInfo = UserInfo(userId: int, name: string, email: string, roles: set<string>, parked: bool,
                               currentLot: Option<string>, currentSpot: Option<int>, parkingSince: Option<int>)

  /** The ids of a user's active reservations. */
  function ActiveOf(reservations: map<int, Reservation>, userId: int): set<int>
  {
    set r | r in reservations && reservations[r].userId == userId && reservations[r].status == Active
  }

  /** The names of the roles a user holds (the `u.roles` relationship). */
  function RoleNames(roles: map<int, Role>, userRoles: map<int, UserRole>, userId: int): (names: set<string>)
    ensures forall n :: n in names <==>
              exists ur :: ur in userRoles && userRoles[ur].userId == userId
                && userRoles[ur].roleId in roles && roles[userRoles[ur].roleId].name == n
  {
    set ur | ur in userRoles && userRoles[ur].userId == userId && userRoles[ur].roleId in roles
      :: roles[userRoles[ur].roleId].name
  }

  /** One entry of UserViewer.get. A user is shown as parked exactly when they hold an active
      reservation; the first one (lowest id) supplies the spot, the lot and the start time,
      each absent when the row it comes from no longer exists. */
  function UserInfoOf(users: map<int, User>, roles: map<int, Role>, userRoles: map<int, UserRole>,
                      lots: map<int, ParkingLot>, spots: map<int, ParkingSpot>,
                      reservations: map<int, Reservation>, u: int): (info: UserInfo)
    requires u in users
    ensures info.userId == u && info.name == users[u].name && info.email == users[u].email
    ensures forall n :: n in info.roles <==> HasRole(users, roles, userRoles, u, n)
    ensures info.parked <==> ActiveOf(reservations, u) != {}
    ensures !info.parked ==> info.currentLot.None? && info.currentSpot.None? && info.parkingSince.None?
    ensures info.parked ==>
              var r := Least(ActiveOf(reservations, u));
              var s := reservations[r].spotId;
              && info.parkingSince == Some(reservations[r].parkingTime)
              && info.currentSpot == (if s in spots then Some(s) else None)
              && info.currentLot == (if s in spots && spots[s].lotId in lots then Some(lots[spots[s].lotId].locationName) else None)
  {
    var names := RoleNames(roles, userRoles, u);
    var active := ActiveOf(reservations, u);
    if active == {} then
      UserInfo(u, users[u].name, users[u].email, names, false, None, None, None)
    else
      var r := Least(active);
      var s := reservations[r].spotId;
      var spot := if s in spots then Some(s) else None;
      var lot := if s in spots && spots[s].lotId in lots then Some(lots[spots[s].lotId].locationName) else None;
      UserInfo(u, users[u].name, users[u].email, names, true, lot, spot, Some(reservations[r].parkingTime))
  }

  /** While the tables are consistent, a parked user is always shown with a spot, which is
      Occupied, and with the name of the lot that spot belongs to. */
  lemma ParkedUserHasOccupiedSpot(users: map<int, User>, roles: map<int, Role>, userRoles: map<int, UserRole>,
                                  lots: map<int, ParkingLot>, spots: map<int, ParkingSpot>,
                                  reservations: map<int, Reservation>, u: int)
    requires u in users
    requires OccupancyAgrees(spots, reservations) && SpotsReferenceLots(lots, spots)
    ensures var info := UserInfoOf(users, roles, userRoles, lots, spots, reservations, u);
      info.parked ==>
        && info.currentSpot.Some? && info.currentSpot.value in spots
        && spots[info.currentSpot.value].status == Occupied
        && info.currentLot == Some(lots[spots[info.currentSpot.value].lotId].locationName)
  {
    var active := ActiveOf(reservations, u);
    if active != {} {
      var r := Least(active);
      assert r in reservations && reservations[r].status == Active;
    }
  }

  /** The entries of the listed users, in the order listed. */
  function UserInfosOf(users: map<int, User>, roles: map<int, Role>, userRoles: map<int, UserRole>,
                       lots: map<int, ParkingLot>, spots: map<int, ParkingSpot>,
                       reservations: map<int, Reservation>, ids: seq<int>): (r: seq<UserInfo>)
    requires forall i :: 0 <= i < |ids| ==> ids[i] in users
    ensures |r| == |ids|
    ensures forall i :: 0 <= i < |r| ==> r[i] == UserInfoOf(users, roles, userRoles, lots, spots, reservations, ids[i])
  {
    seq(|ids|, i requires 0 <= i < |ids| => UserInfoOf(users, roles, userRoles, lots, spots, reservations, ids[i]))
  }

  /** `r` lists every user exactly once, in ascending id order, each with their entry. */
  ghost predicate ListsEveryUser(users: map<int, User>, roles: map<int, Role>, userRoles: map<int, UserRole>,
                                 lots: map<int, ParkingLot>, spots: map<int, ParkingSpot>,
                                 reservations: map<int, Reservation>, r: seq<UserInfo>)
  {
    && |r| == |users|
    && (forall i :: 0 <= i < |r| ==>
          r[i].userId in users && r[i] == UserInfoOf(users, roles, userRoles, lots, spots, reservations, r[i].userId))
    && (forall i, j :: 0 <= i < j < |r| ==> r[i].userId < r[j].userId)
    && (forall u :: u in users ==> exists i :: 0 <= i < |r| && r[i].userId == u)
  }

  /** Listing the users in ascending id order lists every user exactly once. */
  lemma UserInfosListEveryUser(users: map<int, User>, roles: map<int, Role>, userRoles: map<int, UserRole>,
                               lots: map<int, ParkingLot>, spots: map<int, ParkingSpot>,
                               reservations: map<int, Reservation>)
    ensures ListsEveryUser(users, roles, userRoles, lots, spots, reservations,
                           UserInfosOf(users, roles, userRoles, lots, spots, reservations, Ascending(users.Keys)))
  {
    var ids := Ascending(users.Keys);
    var r := UserInfosOf(users, roles, userRoles, lots, spots, reservations, ids);
    forall i | 0 <= i < |r|
      ensures r[i].userId == ids[i]
    {
      assert r[i] == UserInfoOf(users, roles, userRoles, lots, spots, reservations, ids[i]);
    }
    forall u | u in users
      ensures exists i :: 0 <= i < |r| && r[i].userId == u
    {
      assert u in ids;
      var i :| 0 <= i < |ids| && ids[i] == u;
      assert r[i].userId == u;
    }
  }

  /** UserViewer.get: every user exactly once, in ascending id order. */
  function ViewUsers(users: map<int, User>, roles: map<int, Role>, userRoles: map<int, UserRole>,
                     lots: map<int, ParkingLot>, spots: map<int, ParkingSpot>,
                     reservations: map<int, Reservation>): (r: seq<UserInfo>)
    ensures ListsEveryUser(users, roles, userRoles, lots, spots, reservations, r)
  {
    UserInfosListEveryUser(users, roles, userRoles, lots, spots, reservations);
    UserInfosOf(users, roles, userRoles, lots, spots, reservations, Ascending(users.Keys))
  }

  // ---------------------------------------------------------------------------------------
  // Dashboard summary

  datatype Summary = Summary(totalLots: int, totalSpots: int, occupiedSpots: int, availableSpots: int,
                             activeUsers: int, totalUsers: int, totalRevenue: int)

  /** No lot id is listed twice. */
  predicate Distinct(ids: seq<int>)
  {
    forall i, j :: 0 <= i < j < |ids| ==> ids[i] != ids[j]
  }

  /** The sum of the stored number_of_spots of the listed lots. */
  function StoredSpots(lots: map<int, ParkingLot>, ids: seq<int>): int
  {
    if ids == [] then 0
    else (if ids[0] in lots then lots[ids[0]].numberOfSpots else 0) + StoredSpots(lots, ids[1..])
  }

  /** The number of spots in status `st`, counted lot by lot over the listed lots. */
  function StatusCount(spots: map<int, ParkingSpot>, ids: seq<int>, st: SpotStatus): int
  {
    if ids == [] then 0
    else |LotSpotsWith(spots, ids[0], st)| + StatusCount(spots, ids[1..], st)
  }

  /** The spots in status `st` whose lot is one of the listed lots. */
  function SpotsOfLots(spots: map<int, ParkingSpot>, ids: seq<int>, st: SpotStatus): set<int>
  {
    set s | s in spots && spots[s].lotId in ids && spots[s].status == st
  }

  /** All spots in status `st`. */
  function SpotsWith(spots: map<int, ParkingSpot>, st: SpotStatus): set<int>
  {
    set s | s in spots && spots[s].status == st
  }

  /** The ids of all active reservations. */
  function ActiveReservations(reservations: map<int, Reservation>): set<int>
  {
    set r | r in reservations && reservations[r].status == Active
  }

  /** The cost the reservation `r` contributes to the revenue: its cost if it is completed. */
  function CompletedCost(reservations: map<int, Reservation>, r: int): int
  {
    if r in reservations && reservations[r].status == Completed then reservations[r].parkingCost else 0
  }

  /** The summed cost of the listed completed reservations. */
  function Revenue(reservations: map<int, Reservation>, ids: seq<int>): int
  {
    if ids == [] then 0 else CompletedCost(reservations, ids[0]) + Revenue(reservations, ids[1..])
  }

  /** AdminDashSummary.get. The total sums the stored counts, the Occupied count is counted
      lot by lot, the available figure is their difference, "active users" counts the active
      reservations, and the revenue sums the costs of the completed reservations. */
  function DashboardSummary(users: map<int, User>, lots: map<int, ParkingLot>, spots: map<int, ParkingSpot>,
                            reservations: map<int, Reservation>): (s: Summary)
    ensures s.totalLots == |lots| && s.totalUsers == |users|
    ensures s.totalSpots == StoredSpots(lots, Ascending(lots.Keys))
    ensures s.occupiedSpots == StatusCount(spots, Ascending(lots.Keys), Occupied)
    ensures s.availableSpots == s.totalSpots - s.occupiedSpots
    ensures s.activeUsers == |ActiveReservations(reservations)|
    ensures s.totalRevenue == Revenue(reservations, Ascending(reservations.Keys))
  {
    var ids := Ascending(lots.Keys);
    var total := StoredSpots(lots, ids);
    var occupied := StatusCount(spots, ids, Occupied);
    Summary(|lots|, total, occupied, total - occupied, |ActiveReservations(reservations)|, |users|,
            Revenue(reservations, Ascending(reservations.Keys)))
  }

  /** Counting lot by lot over distinct lots counts each spot of those lots once. */
  lemma {:induction false} StatusCountIsUnion(spots: map<int, ParkingSpot>, ids: seq<int>, st: SpotStatus)
    requires Distinct(ids)
    ensures StatusCount(spots, ids, st) == |SpotsOfLots(spots, ids, st)|
  {
    if ids == [] {
      forall x
        ensures x !in SpotsOfLots(spots, ids, st)
      {
      }
      assert SpotsOfLots(spots, ids, st) == {};
    } else {
      var rest := ids[1..];
      StatusCountIsUnion(spots, rest, st);
      var head := LotSpotsWith(spots, ids[0], st);
      forall x
        ensures x in SpotsOfLots(spots, ids, st) <==> x in head + SpotsOfLots(spots, rest, st)
      {
        if x in spots && spots[x].lotId in ids && spots[x].lotId != ids[0] {
          var k :| 0 <= k < |ids| && ids[k] == spots[x].lotId;
          assert rest[k - 1] == spots[x].lotId;
        }
      }
      forall x | x in head
        ensures x !in SpotsOfLots(spots, rest, st)
      {
        assert ids[0] !in rest;
      }
      assert SpotsOfLots(spots, ids, st) == head + SpotsOfLots(spots, rest, st);
    }
  }

  /** When the listed lots are all the lots and every spot references a lot, the spots of
      the listed lots are all the spots. */
  lemma SpotsOfAllLots(lots: map<int, ParkingLot>, spots: map<int, ParkingSpot>, ids: seq<int>, st: SpotStatus)
    requires SpotsReferenceLots(lots, spots)
    requires forall l :: l in lots ==> l in ids
    ensures SpotsOfLots(spots, ids, st) == SpotsWith(spots, st)
  {
    forall x
      ensures x in SpotsOfLots(spots, ids, st) <==> x in SpotsWith(spots, st)
    {
    }
  }

  /** With every stored count in step, the stored total of the listed lots is their
      Available spots plus their Occupied spots. */
  lemma {:induction false} StoredSpotsSplit(lots: map<int, ParkingLot>, spots: map<int, ParkingSpot>, ids: seq<int>)
    requires CountsAgree(lots, spots)
    requires forall i :: 0 <= i < |ids| ==> ids[i] in lots
    ensures StoredSpots(lots, ids) == StatusCount(spots, ids, Available) + StatusCount(spots, ids, Occupied)
  {
    if ids != [] {
      LotSpotsPartition(spots, ids[0]);
      StoredSpotsSplit(lots, spots, ids[1..]);
    }
  }

  /** The spots of distinct active reservations are distinct, so there are as many of them
      as reservations. */
  lemma {:induction false} SpotsOfActiveCount(reservations: map<int, Reservation>, a: set<int>)
    requires a <= reservations.Keys
    requires forall r1, r2 :: r1 in a && r2 in a && r1 != r2 ==> reservations[r1].spotId != reservations[r2].spotId
    ensures |set r | r in a && r in reservations :: reservations[r].spotId| == |a|
    decreases |a|
  {
    var image := set r | r in a && r in reservations :: reservations[r].spotId;
    if a != {} {
      Inhabited(a);
      var r :| r in a;
      var a' := a - {r};
      SpotsOfActiveCount(reservations, a');
      var image' := set x | x in a' && x in reservations :: reservations[x].spotId;
      forall s
        ensures s in image <==> s in image' + {reservations[r].spotId}
      {
        if s in image && s != reservations[r].spotId {
          var x :| x in a && x in reservations && reservations[x].spotId == s;
          assert x in a';
        }
      }
      assert image == image' + {reservations[r].spotId};
      assert reservations[r].spotId !in image';
    } else {
      forall s
        ensures s !in image
      {
      }
      assert image == {};
    }
  }

  /** While occupancy agrees with the reservations, the active reservations and the Occupied
      spots are in one-to-one correspondence. */
  lemma ActiveMatchesOccupied(spots: map<int, ParkingSpot>, reservations: map<int, Reservation>)
    requires OccupancyAgrees(spots, reservations)
    ensures |ActiveReservations(reservations)| == |SpotsWith(spots, Occupied)|
  {
    var a := ActiveReservations(reservations);
    SpotsOfActiveCount(reservations, a);
    var image := set r | r in a && r in reservations :: reservations[r].spotId;
    forall s
      ensures s in image <==> s in SpotsWith(spots, Occupied)
    {
      if s in SpotsWith(spots, Occupied) {
        var r :| r in reservations && reservations[r].status == Active && reservations[r].spotId == s;
        assert r in a;
      }
    }
    assert image == SpotsWith(spots, Occupied);
  }

  /** The lots in ascending id order: each listed lot exists, each lot is listed, none twice. */
  lemma AllLotsListed(lots: map<int, ParkingLot>)
    ensures var ids := Ascending(lots.Keys);
      && Distinct(ids)
      && (forall l :: l in lots ==> l in ids)
      && (forall i :: 0 <= i < |ids| ==> ids[i] in lots)
  {
  }

  /** What the dashboard figures mean while the tables are consistent: the Occupied count is
      the number of Occupied spots, it equals the number of active reservations, and, when
      the stored counts are in step, the available figure is the number of Available spots. */
  lemma DashboardCountsAgree(users: map<int, User>, lots: map<int, ParkingLot>, spots: map<int, ParkingSpot>,
                             reservations: map<int, Reservation>)
    requires SpotsReferenceLots(lots, spots) && OccupancyAgrees(spots, reservations)
    ensures var s := DashboardSummary(users, lots, spots, reservations);
      && s.occupiedSpots == |SpotsWith(spots, Occupied)|
      && s.activeUsers == s.occupiedSpots
      && (CountsAgree(lots, spots) ==> s.availableSpots == |SpotsWith(spots, Available)|)
  {
    var ids := Ascending(lots.Keys);
    AllLotsListed(lots);
    StatusCountIsUnion(spots, ids, Occupied);
    SpotsOfAllLots(lots, spots, ids, Occupied);
    ActiveMatchesOccupied(spots, reservations);
    if CountsAgree(lots, spots) {
      StatusCountIsUnion(spots, ids, Available);
      SpotsOfAllLots(lots, spots, ids, Available);
      StoredSpotsSplit(lots, spots, ids);
    }
  }

  /** The total sums the stored counts, not the spots: a lot stored with a negative count and
      no spots makes the available figure negative. */
  lemma DashboardNegativeCount(users: map<int, User>, reservations: map<int, Reservation>)
    ensures var s := DashboardSummary(users, map[1 := ParkingLot("Central", 1000, "560001", -2)], map[], reservations);
      s.totalSpots == -2 && s.occupiedSpots == 0 && s.availableSpots == -2
  {
    var lots := map[1 := ParkingLot("Central", 1000, "560001", -2)];
    var spots: map<int, ParkingSpot> := map[];
    var ids := Ascending(lots.Keys);
    assert lots.Keys == {1};
    assert ids == [1] by {
      assert ids[0] == 1;
    }
    assert StoredSpots(lots, ids) == -2 by {
      assert ids[1..] == [];
    }
    assert StatusCount(spots, ids, Occupied) == 0 by {
      assert LotSpotsWith(spots, 1, Occupied) == {};
      assert ids[1..] == [];
    }
  }

  // ---------------------------------------------------------------------------------------
  // Revenue by lot

  datatype LotRevenue = LotRevenue(lotName: string, revenue: int)

  /** The lot whose spot a reservation references, absent when the spot is gone. */
  function ReservationLot(spots: map<int, ParkingSpot>, res: Reservation): Option<int>
  {
    if res.spotId in spots then Some(spots[res.spotId].lotId) else None
  }

  /** What reservation `r` adds to the revenue of lot `lotId`: its cost if it is completed and
      its spot still exists in that lot (the inner join with parking_spots). */
  function Contribution(reservations: map<int, Reservation>, spots: map<int, ParkingSpot>, r: int, lotId: int): int
  {
    if r in reservations && reservations[r].status == Completed && ReservationLot(spots, reservations[r]) == Some(lotId)
    then reservations[r].parkingCost else 0
  }

  /** The revenue of one lot over the listed reservations. */
  function LotRevenueOver(reservations: map<int, Reservation>, spots: map<int, ParkingSpot>, ids: seq<int>, lotId: int): int
  {
    if ids == [] then 0
    else Contribution(reservations, spots, ids[0], lotId) + LotRevenueOver(reservations, spots, ids[1..], lotId)
  }

  /** A lot none of whose listed completed reservations sits on one of its spots earns 0 (the
      `or 0` of an empty sum). */
  lemma {:induction false} LotRevenueZero(reservations: map<int, Reservation>, spots: map<int, ParkingSpot>, ids: seq<int>, lotId: int)
    requires forall i :: 0 <= i < |ids| && ids[i] in reservations && reservations[ids[i]].status == Completed ==>
               ReservationLot(spots, reservations[ids[i]]) != Some(lotId)
    ensures LotRevenueOver(reservations, spots, ids, lotId) == 0
  {
    if ids != [] {
      assert forall i :: 0 <= i < |ids| - 1 ==> ids[1..][i] == ids[i + 1];
      LotRevenueZero(reservations, spots, ids[1..], lotId);
    }
  }

  /** The revenue rows for the listed lots, in the order listed. */
  function RevenueRows(lots: map<int, ParkingLot>, spots: map<int, ParkingSpot>, reservations: map<int, Reservation>,
                       lotIds: seq<int>): (rows: seq<LotRevenue>)
    requires forall i :: 0 <= i < |lotIds| ==> lotIds[i] in lots
    ensures |rows| == |lotIds|
    ensures forall i :: 0 <= i < |rows| ==>
              && rows[i].lotName == lots[lotIds[i]].locationName
              && rows[i].revenue == LotRevenueOver(reservations, spots, Ascending(reservations.Keys), lotIds[i])
  {
    if lotIds == [] then []
    else
      var head := LotRevenue(lots[lotIds[0]].locationName,
                             LotRevenueOver(reservations, spots, Ascending(reservations.Keys), lotIds[0]));
      var rest := RevenueRows(lots, spots, reservations, lotIds[1..]);
      assert forall i :: 1 <= i < |lotIds| ==> ([head] + rest)[i] == rest[i - 1] && lotIds[i] == lotIds[1..][i - 1];
      [head] + rest
  }

  /** AdminRevenue.get: for every lot, in ascending id order, its name and the summed cost of
      the completed reservations on its spots (0 when there are none). */
  function RevenueByLot(lots: map<int, ParkingLot>, spots: map<int, ParkingSpot>, reservations: map<int, Reservation>): (rows: seq<LotRevenue>)
    ensures |rows| == |lots|
    ensures forall i :: 0 <= i < |rows| ==>
              && rows[i].lotName == lots[Ascending(lots.Keys)[i]].locationName
              && rows[i].revenue == LotRevenueOver(reservations, spots, Ascending(reservations.Keys), Ascending(lots.Keys)[i])
  {
    RevenueRows(lots, spots, reservations, Ascending(lots.Keys))
  }

  /** The sum of the revenue column. */
  function TotalOf(rows: seq<LotRevenue>): int
  {
    if rows == [] then 0 else rows[0].revenue + TotalOf(rows[1..])
  }

  /** The revenue over the listed reservations that no listed lot is credited with: completed
      reservations whose spot is gone or belongs to an unlisted lot. */
  function Unattributed(reservations: map<int, Reservation>, spots: map<int, ParkingSpot>, ids: seq<int>, lotIds: seq<int>): int
  {
    if ids == [] then 0
    else
      var r := ids[0];
      var lot := if r in reservations then ReservationLot(spots, reservations[r]) else None;
      (if lot.Some? && lot.value in lotIds then 0 else CompletedCost(reservations, r))
      + Unattributed(reservations, spots, ids[1..], lotIds)
  }

  /** The summed revenue of the listed lots over the listed reservations. */
  function LotsRevenue(reservations: map<int, Reservation>, spots: map<int, ParkingSpot>, ids: seq<int>, lotIds: seq<int>): int
  {
    if lotIds == [] then 0
    else LotRevenueOver(reservations, spots, ids, lotIds[0]) + LotsRevenue(reservations, spots, ids, lotIds[1..])
  }

  /** What one reservation adds to all the listed lots together. */
  function Share(reservations: map<int, Reservation>, spots: map<int, ParkingSpot>, r: int, lotIds: seq<int>): int
  {
    if lotIds == [] then 0 else Contribution(reservations, spots, r, lotIds[0]) + Share(reservations, spots, r, lotIds[1..])
  }

  lemma {:induction false} LotsRevenueOfNone(reservations: map<int, Reservation>, spots: map<int, ParkingSpot>, lotIds: seq<int>)
    ensures LotsRevenue(reservations, spots, [], lotIds) == 0
  {
    if lotIds != [] {
      LotsRevenueOfNone(reservations, spots, lotIds[1..]);
    }
  }

  lemma {:induction false} LotsRevenueSplit(reservations: map<int, Reservation>, spots: map<int, ParkingSpot>, ids: seq<int>, lotIds: seq<int>)
    requires ids != []
    ensures LotsRevenue(reservations, spots, ids, lotIds) ==
            Share(reservations, spots, ids[0], lotIds) + LotsRevenue(reservations, spots, ids[1..], lotIds)
  {
    if lotIds != [] {
      LotsRevenueSplit(reservations, spots, ids, lotIds[1..]);
    }
  }

  /** Over distinct lots, a completed reservation is credited to at most one, and in full. */
  lemma {:induction false} ShareOnce(reservations: map<int, Reservation>, spots: map<int, ParkingSpot>, r: int, lotIds: seq<int>)
    requires Distinct(lotIds)
    ensures var lot := if r in reservations then ReservationLot(spots, reservations[r]) else None;
      Share(reservations, spots, r, lotIds) == if lot.Some? && lot.value in lotIds then CompletedCost(reservations, r) else 0
  {
    if lotIds != [] {
      var rest := lotIds[1..];
      ShareOnce(reservations, spots, r, rest);
      var lot := if r in reservations then ReservationLot(spots, reservations[r]) else None;
      if lot.Some? && lot.value == lotIds[0] {
        assert lotIds[0] !in rest;
      } else if lot.Some? {
        assert lot.value in lotIds <==> lot.value in rest by {
          if lot.value in lotIds {
            var k :| 0 <= k < |lotIds| && lotIds[k] == lot.value;
            assert rest[k - 1] == lot.value;
          }
        }
      }
    }
  }

  /** Revenue is conserved: what the distinct listed lots are credited with, plus what none of
      them is credited with, is the whole revenue of the listed reservations. */
  lemma {:induction false} RevenueConserved(reservations: map<int, Reservation>, spots: map<int, ParkingSpot>, ids: seq<int>, lotIds: seq<int>)
    requires Distinct(lotIds)
    ensures LotsRevenue(reservations, spots, ids, lotIds) + Unattributed(reservations, spots, ids, lotIds)
            == Revenue(reservations, ids)
  {
    if ids == [] {
      LotsRevenueOfNone(reservations, spots, lotIds);
    } else {
      LotsRevenueSplit(reservations, spots, ids, lotIds);
      ShareOnce(reservations, spots, ids[0], lotIds);
      RevenueConserved(reservations, spots, ids[1..], lotIds);
    }
  }

  lemma {:induction false} RevenueRowsTotal(lots: map<int, ParkingLot>, spots: map<int, ParkingSpot>,
                                            reservations: map<int, Reservation>, lotIds: seq<int>)
    requires forall i :: 0 <= i < |lotIds| ==> lotIds[i] in lots
    ensures TotalOf(RevenueRows(lots, spots, reservations, lotIds))
            == LotsRevenue(reservations, spots, Ascending(reservations.Keys), lotIds)
  {
    if lotIds != [] {
      RevenueRowsTotal(lots, spots, reservations, lotIds[1..]);
    }
  }

  /** The revenue-by-lot rows add up to the dashboard's total revenue, less the revenue of
      completed reservations no lot is credited with (whose spot was deleted). */
  lemma RevenueByLotAddsUp(users: map<int, User>, lots: map<int, ParkingLot>, spots: map<int, ParkingSpot>,
                           reservations: map<int, Reservation>)
    ensures TotalOf(RevenueByLot(lots, spots, reservations))
            + Unattributed(reservations, spots, Ascending(reservations.Keys), Ascending(lots.Keys))
            == DashboardSummary(users, lots, spots, reservations).totalRevenue
  {
    var lotIds := Ascending(lots.Keys);
    RevenueRowsTotal(lots, spots, reservations, lotIds);
    RevenueConserved(reservations, spots, Ascending(reservations.Keys), lotIds);
  }

  /** When every completed reservation's spot still exists and every spot references a lot,
      no revenue is left unattributed. */
  lemma {:induction false} NothingUnattributed(lots: map<int, ParkingLot>, spots: map<int, ParkingSpot>,
                                               reservations: map<int, Reservation>, ids: seq<int>, lotIds: seq<int>)
    requires SpotsReferenceLots(lots, spots)
    requires forall l :: l in lots ==> l in lotIds
    requires forall r :: r in reservations && reservations[r].status == Completed ==> reservations[r].spotId in spots
    ensures Unattributed(reservations, spots, ids, lotIds) == 0
  {
    if ids != [] {
      NothingUnattributed(lots, spots, reservations, ids[1..], lotIds);
    }
  }

  // ---------------------------------------------------------------------------------------
  // All bookings

  datatype BookingRecord = BookingRecord(reservationId: int, userName: Option<string>, userEmail: Option<string>,
                                         lotName: Option<string>, spotId: Option<int>, parkingTime: int,
                                         exitTime: Option<int>, status: ReservationStatus, parkingCost: int)

  /** One row of Admin_AllBookings.get; the user, spot and lot parts are absent when the row
      they come from no longer exists. */
  function BookingOf(users: map<int, User>, lots: map<int, ParkingLot>, spots: map<int, ParkingSpot>,
                     reservations: map<int, Reservation>, r: int): (b: BookingRecord)
    requires r in reservations
    ensures b.reservationId == r
    ensures var res := reservations[r];
      && b.parkingTime == res.parkingTime && b.exitTime == res.exitTime
      && b.status == res.status && b.parkingCost == res.parkingCost
      && (b.userName.Some? <==> res.userId in users) && (b.userEmail.Some? <==> res.userId in users)
      && (res.userId in users ==> b.userName.value == users[res.userId].name && b.userEmail.value == users[res.userId].email)
      && (b.spotId.Some? <==> res.spotId in spots) && (b.spotId.Some? ==> b.spotId.value == res.spotId)
      && (b.lotName.Some? <==> res.spotId in spots && spots[res.spotId].lotId in lots)
      && (b.lotName.Some? ==> b.lotName.value == lots[spots[res.spotId].lotId].locationName)
  {
    var res := reservations[r];
    var user := if res.userId in users then Some(users[res.userId]) else None;
    var spot := if res.spotId in spots then Some(res.spotId) else None;
    var lot := if res.spotId in spots && spots[res.spotId].lotId in lots then Some(lots[spots[res.spotId].lotId].locationName) else None;
    BookingRecord(r, if user.Some? then Some(user.value.name) else None, if user.Some? then Some(user.value.email) else None,
                  lot, spot, res.parkingTime, res.exitTime, res.status, res.parkingCost)
  }

  /** The rows of the listed reservations, in the order listed. */
  function BookingsOf(users: map<int, User>, lots: map<int, ParkingLot>, spots: map<int, ParkingSpot>,
                      reservations: map<int, Reservation>, ids: seq<int>): (rows: seq<BookingRecord>)
    requires AllReservations(reservations, ids)
    ensures |rows| == |ids|
    ensures forall i :: 0 <= i < |rows| ==> rows[i] == BookingOf(users, lots, spots, reservations, ids[i])
  {
    seq(|ids|, i requires 0 <= i < |ids| => BookingOf(users, lots, spots, reservations, ids[i]))
  }

  /** Listing the bookings newest first lists every reservation exactly once. */
  lemma BookingsListEveryReservation(users: map<int, User>, lots: map<int, ParkingLot>, spots: map<int, ParkingSpot>,
                                     reservations: map<int, Reservation>)
    ensures var rows := BookingsOf(users, lots, spots, reservations, NewestFirstOf(reservations, reservations.Keys));
      && |rows| == |reservations|
      && (forall i :: 0 <= i < |rows| ==>
            rows[i].reservationId in reservations && rows[i] == BookingOf(users, lots, spots, reservations, rows[i].reservationId))
      && (forall i, j :: 0 <= i < j < |rows| ==> rows[i].parkingTime >= rows[j].parkingTime)
      && (forall r :: r in reservations ==> exists i :: 0 <= i < |rows| && rows[i].reservationId == r)
      && (forall i, j :: 0 <= i < j < |rows| ==> rows[i].reservationId != rows[j].reservationId)
  {
    var ids := NewestFirstOf(reservations, reservations.Keys);
    var rows := BookingsOf(users, lots, spots, reservations, ids);
    forall i | 0 <= i < |rows|
      ensures rows[i].reservationId == ids[i] && rows[i].parkingTime == reservations[ids[i]].parkingTime
    {
      assert rows[i] == BookingOf(users, lots, spots, reservations, ids[i]);
    }
    forall r | r in reservations
      ensures exists i :: 0 <= i < |rows| && rows[i].reservationId == r
    {
      assert multiset(ids)[r] == 1;
      assert r in ids;
      var i :| 0 <= i < |ids| && ids[i] == r;
      assert rows[i].reservationId == r;
    }
    forall i, j | 0 <= i < j < |rows|
      ensures rows[i].reservationId != rows[j].reservationId
    {
      if ids[i] == ids[j] {
        MultisetTwice(ids, i, j);
      }
    }
  }

  /** Admin_AllBookings.get: every reservation exactly once, newest first. */
  function AllBookings(users: map<int, User>, lots: map<int, ParkingLot>, spots: map<int, ParkingSpot>,
                       reservations: map<int, Reservation>): (rows: seq<BookingRecord>)
    ensures |rows| == |reservations|
    ensures forall i :: 0 <= i < |rows| ==>
              rows[i].reservationId in reservations && rows[i] == BookingOf(users, lots, spots, reservations, rows[i].reservationId)
    ensures forall i, j :: 0 <= i < j < |rows| ==> rows[i].parkingTime >= rows[j].parkingTime
    ensures forall r :: r in reservations ==> exists i :: 0 <= i < |rows| && rows[i].reservationId == r
    ensures forall i, j :: 0 <= i < j < |rows| ==> rows[i].reservationId != rows[j].reservationId
  {
    BookingsListEveryReservation(users, lots, spots, reservations);
    BookingsOf(users, lots, spots, reservations, NewestFirstOf(reservations, reservations.Keys))
  }

  /** An element at two positions of a sequence occurs there at least twice. */
  lemma {:induction false} MultisetTwice(s: seq<int>, i: int, j: int)
    requires 0 <= i < j < |s| && s[i] == s[j]
    ensures multiset(s)[s[i]] >= 2
  {
    var x := s[i];
    assert s == s[..j] + s[j..];
    assert s[..j] == s[..i] + s[i..j];
    assert x in s[i..j];
    assert x in s[j..];
    assert multiset(s) == multiset(s[..i]) + multiset(s[i..j]) + multiset(s[j..]);
  }
}
