/** The relational store the handlers share: one map per table, keyed by primary key, and the
    next primary key each table will hand out. A handler is one atomic step over this object;
    lot creation and registration, which commit twice, are the two exceptions the README
    describes. */
module Store {
  import opened Common
  import opened Models

  class Database {
    var users: map<int, User>
    var roles: map<int, Role>
    var userRoles: map<int, UserRole>
    var lots: map<int, ParkingLot>
    var spots: map<int, ParkingSpot>
    var reservations: map<int, Reservation>

    var nextUserId: int
    var nextRoleId: int
    var nextUserRoleId: int
    var nextLotId: int
    var nextSpotId: int
    var nextReservationId: int

    /** The constraints every handler keeps: fresh keys stay fresh, the declared foreign keys
        that the handlers maintain, occupancy agreeing with the active reservations, and the
        uniqueness of user names, e-mails and role names. */
    ghost predicate Valid()
      reads this
    {
      AccountsValid() && ParkingValid()
    }

    /** The user, role and user_role tables: fresh keys, the user_roles foreign keys, and
        unique user names, e-mails and role names. */
    ghost predicate AccountsValid()
      reads this`users, this`roles, this`userRoles, this`nextUserId, this`nextRoleId, this`nextUserRoleId
    {
      && KeysBelow(users, nextUserId)
      && KeysBelow(roles, nextRoleId)
      && KeysBelow(userRoles, nextUserRoleId)
      && UserRolesReference(users, roles, userRoles)
      && UniqueNames(users)
      && UniqueEmails(users)
      && UniqueRoleNames(roles)
    }

    /** The lot, spot and reservation tables: fresh keys, the spot→lot and reservation→user
        foreign keys, and occupancy agreeing with the active reservations. */
    ghost predicate ParkingValid()
      reads this`users, this`lots, this`spots, this`reservations, this`nextLotId, this`nextSpotId, this`nextReservationId
    {
      && KeysBelow(lots, nextLotId)
      && KeysBelow(spots, nextSpotId)
      && KeysBelow(reservations, nextReservationId)
      && SpotsReferenceLots(lots, spots)
      && ReservationsReferenceUsers(users, reservations)
      && OccupancyAgrees(spots, reservations)
    }

    /** The stored `number_of_spots` of every lot matches its spots. */
    ghost predicate SpotCountsAgree()
      reads this
    {
      CountsAgree(lots, spots)
    }

    /** Is the caller a known user holding the named role? */
    ghost predicate CallerHasRole(caller: int, role: string)
      reads this
    {
      HasRole(users, roles, userRoles, caller, role)
    }

    /** An empty database: every table empty, every key counter at 1. */
    constructor Empty()
      ensures Valid() && SpotCountsAgree()
      ensures users == map[] && roles == map[] && userRoles == map[]
      ensures lots == map[] && spots == map[] && reservations == map[]
    {
      users, roles, userRoles := map[], map[], map[];
      lots, spots, reservations := map[], map[], map[];
      nextUserId, nextRoleId, nextUserRoleId := 1, 1, 1;
      nextLotId, nextSpotId, nextReservationId := 1, 1, 1;
    }
  }
}
