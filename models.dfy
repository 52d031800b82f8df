/** The rows of the six tables (users, roles, user_roles, parking_lots, parking_spots,
    reservations), their column defaults, and the integrity constraints that relate them.
    Every table is a map from primary key to row; primary keys are positive integers. */
module Models {
  import opened Common

  /** parking_spots.current_status: 'A' (Available) or 'O' (Occupied); nothing else is ever stored. */
  datatype SpotStatus = Available | Occupied

  /** reservations.current_status: "active" while parked, "completed" after leaving. */
  datatype ReservationStatus = Active | Completed

  /** `password` holds the stored hash, never the submitted password. */
  datatype User = User(name: string, email: string, password: string, active: bool)

  datatype Role = Role(name: string, description: string)

  /** A row of the user_roles association table. */
  datatype UserRole = UserRole(userId: int, roleId: int)

  /** `numberOfSpots` is a stored column, independent of the spots that reference the lot.
      Prices are whole currency sub-units (paise) per hour. */
  datatype ParkingLot = ParkingLot(locationName: string, price: int, pinCode: string, numberOfSpots: int)

  datatype ParkingSpot = ParkingSpot(lotId: int, status: SpotStatus)

  /** Times are whole seconds; the cost is in the same sub-units as the lot price. */
  datatype Reservation = Reservation(
    userId: int,
    spotId: int,
    parkingTime: int,
    exitTime: Option<int>,
    parkingCost: int,
    status: ReservationStatus)

  // Rows as the handlers create them, with the column defaults filled in.

  function NewUser(name: string, email: string, passwordHash: string): User
  {
    User(name, email, passwordHash, true)
  }

  function NewSpot(lotId: int): ParkingSpot
  {
    ParkingSpot(lotId, Available)
  }

  function NewReservation(userId: int, spotId: int, parkingTime: int): Reservation
  {
    Reservation(userId, spotId, parkingTime, None, 0, Active)
  }

  // Queries over the tables.

  /** The ids of the spots that belong to a lot (the `lot.spots` relationship). */
  function LotSpots(spots: map<int, ParkingSpot>, lotId: int): set<int>
  {
    set s | s in spots && spots[s].lotId == lotId
  }

  /** The ids of the spots of a lot that are in the given status. */
  function LotSpotsWith(spots: map<int, ParkingSpot>, lotId: int, st: SpotStatus): set<int>
  {
    set s | s in spots && spots[s].lotId == lotId && spots[s].status == st
  }

  /** Each spot of a lot is either Available or Occupied, never both. */
  lemma LotSpotsPartition(spots: map<int, ParkingSpot>, lotId: int)
    ensures LotSpots(spots, lotId) == LotSpotsWith(spots, lotId, Available) + LotSpotsWith(spots, lotId, Occupied)
    ensures LotSpotsWith(spots, lotId, Available) !! LotSpotsWith(spots, lotId, Occupied)
    ensures |LotSpots(spots, lotId)| == |LotSpotsWith(spots, lotId, Available)| + |LotSpotsWith(spots, lotId, Occupied)|
  {
    var all, a, o := LotSpots(spots, lotId), LotSpotsWith(spots, lotId, Available), LotSpotsWith(spots, lotId, Occupied);
    forall x
      ensures x in all <==> x in a + o
    {
      if x in all {
        assert spots[x].status == Available || spots[x].status == Occupied;
      }
    }
    assert all == a + o;
  }

  /** The active reservations that reference a spot. */
  function ActiveOn(reservations: map<int, Reservation>, spotId: int): set<int>
  {
    set r | r in reservations && reservations[r].status == Active && reservations[r].spotId == spotId
  }

  /** Does `userId` hold an active reservation on `spotId`? */
  predicate HoldsActive(reservations: map<int, Reservation>, userId: int, spotId: int)
  {
    exists r :: r in reservations && reservations[r].userId == userId && reservations[r].spotId == spotId
      && reservations[r].status == Active
  }

  // Integrity constraints.

  /** Primary keys are positive and below the next key the table will hand out. */
  predicate KeysBelow<T>(m: map<int, T>, next: int)
  {
    0 < next && forall k :: k in m ==> 0 < k < next
  }

  /** parking_spots.lot_id is a non-null foreign key into parking_lots. */
  predicate SpotsReferenceLots(lots: map<int, ParkingLot>, spots: map<int, ParkingSpot>)
  {
    forall s :: s in spots ==> spots[s].lotId in lots
  }

  /** reservations.user_id is a non-null foreign key into users. */
  predicate ReservationsReferenceUsers(users: map<int, User>, reservations: map<int, Reservation>)
  {
    forall r :: r in reservations ==> reservations[r].userId in users
  }

  /** Both columns of user_roles are foreign keys. */
  predicate UserRolesReference(users: map<int, User>, roles: map<int, Role>, userRoles: map<int, UserRole>)
  {
    forall ur :: ur in userRoles ==> userRoles[ur].userId in users && userRoles[ur].roleId in roles
  }

  /** Occupancy agrees with the reservations: every active reservation sits on an existing,
      Occupied spot; no two active reservations share a spot; and every Occupied spot carries
      an active reservation. */
  predicate OccupancyAgrees(spots: map<int, ParkingSpot>, reservations: map<int, Reservation>)
  {
    && (forall r :: r in reservations && reservations[r].status == Active ==>
          reservations[r].spotId in spots && spots[reservations[r].spotId].status == Occupied)
    && (forall r1, r2 ::
          r1 in reservations && r2 in reservations && r1 != r2 &&
          reservations[r1].status == Active && reservations[r2].status == Active ==>
          reservations[r1].spotId != reservations[r2].spotId)
    && (forall s :: s in spots && spots[s].status == Occupied ==>
          exists r :: r in reservations && reservations[r].status == Active && reservations[r].spotId == s)
  }

  /** Under OccupancyAgrees a spot is Occupied exactly when one active reservation references
      it, and Available exactly when none does. */
  lemma OccupiedIffOneActive(spots: map<int, ParkingSpot>, reservations: map<int, Reservation>, s: int)
    requires OccupancyAgrees(spots, reservations)
    requires s in spots
    ensures spots[s].status == Occupied <==> |ActiveOn(reservations, s)| == 1
    ensures spots[s].status == Available <==> ActiveOn(reservations, s) == {}
  {
    if spots[s].status == Occupied {
      var r :| r in reservations && reservations[r].status == Active && reservations[r].spotId == s;
      forall x
        ensures x in ActiveOn(reservations, s) <==> x == r
      {
      }
      assert ActiveOn(reservations, s) == {r};
    } else {
      forall x
        ensures x !in ActiveOn(reservations, s)
      {
      }
      assert ActiveOn(reservations, s) == {};
    }
  }

  /** The stored spot count of every lot equals the number of spots that reference it. */
  predicate CountsAgree(lots: map<int, ParkingLot>, spots: map<int, ParkingSpot>)
  {
    forall l :: l in lots ==> lots[l].numberOfSpots == |LotSpots(spots, l)|
  }

  /** users.email is declared unique. */
  predicate UniqueEmails(users: map<int, User>)
  {
    forall a, b :: a in users && b in users && users[a].email == users[b].email ==> a == b
  }

  /** No two users share a name (registration refuses a taken name). */
  predicate UniqueNames(users: map<int, User>)
  {
    forall a, b :: a in users && b in users && users[a].name == users[b].name ==> a == b
  }

  /** roles.name is declared unique. */
  predicate UniqueRoleNames(roles: map<int, Role>)
  {
    forall a, b :: a in roles && b in roles && roles[a].name == roles[b].name ==> a == b
  }

  /** The user exists and holds the role of that name through user_roles. */
  predicate HasRole(users: map<int, User>, roles: map<int, Role>, userRoles: map<int, UserRole>, userId: int, name: string)
  {
    userId in users &&
    exists ur :: ur in userRoles && userRoles[ur].userId == userId
      && userRoles[ur].roleId in roles && roles[userRoles[ur].roleId].name == name
  }
}
