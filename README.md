# ParkXcel parking backend — a verified model

ParkXcel is a Flask/SQLAlchemy backend for a multi-lot parking service. Administrators
create, edit and delete parking lots and read dashboards over them. Users register and log
in. They reserve the lowest-numbered free spot of a lot and release it again, being billed
for the time parked at the lot's hourly price. They can also read their history and a usage
summary.

This project models the core of that backend in Dafny:

- **Models**: the six tables (users, roles, user_roles, parking_lots, parking_spots,
  reservations) as maps from primary key to row, and the integrity constraints that relate
  them.
- **Store**: a `Database` class holding those maps and the next primary key of each table.
  Every state-changing handler is one method over it and one atomic step. Lot creation and
  registration commit twice in the source; see "## Left out".
- **AdminApis**: lot creation (with its spots), lot editing (grow, shrink, or keep the spot
  count), and lot deletion.
- **AdminViews**: the admin lot viewer, user viewer, dashboard summary, revenue by lot, and
  the list of all bookings.
- **UserApis**: reserving and releasing a spot, the user's lot listing, parking history, and
  the usage-summary loop.
- **AuthenApis**: registration (creating the "user" role when it is missing) and login by
  name or e-mail.
- **Billing**: the parking charge.
- **Bookings**: the "newest first" order of the history and bookings lists.
- **Scenarios**: handler sequences whose outcomes follow from the contracts alone. A
  two-spot lot fills up and refuses a third car. An hour is billed at the hourly price. A
  second release of the same spot is refused, and the freed spot goes to the next car.

## Invariants

Every handler keeps `Database.Valid()`:

- primary keys stay below the next key handed out;
- the foreign keys the handlers maintain hold: spot→lot, reservation→user, and
  user_role→user and role;
- user names, e-mails and role names stay unique;
- **occupancy agrees with the reservations**: every active reservation sits on an existing
  Occupied spot, no two active reservations share a spot, and every Occupied spot carries an
  active reservation.

`Valid()` is the conjunction of `AccountsValid()`, which reads the users, roles and
user_roles tables, and `ParkingValid()`, which reads the lots, spots and reservations tables
and also the users table, for the reservation→user key.

The stored `number_of_spots` agreeing with the spots of each lot is a separate predicate,
`SpotCountsAgree()`. CreateLot accepts a negative count, which stores that count and creates
no spots, so this agreement can fail. Every handler preserves the agreement when it held
before: CreateLot does so exactly when the count is not negative.

## Modelling choices

- Times are whole seconds and prices are whole currency sub-units per hour.
- The charge is (exit − start)·price/3600 rounded to the nearest sub-unit, halves going to
  the even neighbour as Python's `round` does.
- Queries without an ORDER BY are read in ascending primary-key order. The one exception is
  the spot removal when a lot shrinks, which is modelled as removing any `k` Available spots
  of the lot.
- Password hashing and its check are parameters (`hash`, `checkHash`).
- The state-changing handlers (lot creation, editing and deletion, reserve, release) and the
  user summary take the caller as a user id and require that the caller holds the role the
  route's decorator checks; the 403 path is left to the decorator. The read-only views (the
  admin lot viewer, user viewer, dashboard, revenue by lot and all bookings, and the user lot
  viewer) take no caller and are modelled without the role gate; the park history takes the
  caller's id only to select its reservations and does not require its role.

Two places where the repository's behaviour differs from a first reading:

- `controllers/routes/user_apis.py` defines `User_ReserveSpot` twice. The second
  definition (lines 67-100) is the one bound at import time and the one modelled.
- The admin lot viewer counts a lot's actual spots. The user lot listing reports the stored
  `number_of_spots`.

## Model

| member | source | states |
|---|---|---|
| Models.NewUser | controllers/models.py:14 | a new user row is active and stores the given password hash (the `active` default) |
| Models.NewSpot | controllers/models.py:57 | a new spot row is Available (the `current_status` default) |
| Models.NewReservation | controllers/models.py:64-77 | a new reservation is active, has no exit time and costs 0 (the column defaults) |
| Models.LotSpotsPartition | controllers/models.py:57 | every spot of a lot is Available or Occupied and never both, so the lot's spots split into the two status sets |
| Models.OccupiedIffOneActive | controllers/models.py:51-77 | while occupancy agrees, a spot is Occupied exactly when one active reservation references it, and Available exactly when none does |
| Models.OccupancyAgrees | controllers/models.py:57-77 | the occupancy invariant: every active reservation sits on an existing Occupied spot, no two share a spot, and every Occupied spot carries one |
| Models.CountsAgree | controllers/models.py:44-47 | each lot's stored number_of_spots equals the number of spot rows referencing it |
| Store.Database.Empty | controllers/models.py:8-77 | an empty database satisfies every invariant and the spot-count agreement |
| Billing.RoundPerHour | controllers/routes/user_apis.py:123-124 | the result is n/3600 rounded to the nearest integer, a tie going to the even neighbour |
| Billing.RoundedPerHourUnique | controllers/routes/user_apis.py:123-124 | that rounding has exactly one answer |
| Billing.Cost | controllers/routes/user_apis.py:123-124 | the charge is duration·price/3600 rounded half to even |
| Billing.CostNonNegative | controllers/routes/user_apis.py:123-124 | a non-negative duration at a non-negative price costs at least nothing |
| Billing.CostWholeHours | controllers/routes/user_apis.py:123-124 | h whole hours at price p cost exactly h·p |
| Billing.CostExactWhenWhole | controllers/routes/user_apis.py:123-124 | when duration·price is a multiple of 3600 the charge is that quotient, unrounded |
| Billing.CostMonotone | controllers/routes/user_apis.py:123-124 | at a non-negative price a later exit never costs less |
| Billing.CostExamples | controllers/routes/user_apis.py:123-124 | 2 h at 10.00 cost 20.00; 1.5 h cost 15.00; exact half sub-units 0.5 and 1.5 round to 0 and 2 |
| Bookings.InsertByTime | controllers/routes/admin_apis.py:192 | inserting one reservation id adds exactly that id to the multiset of listed ids |
| Bookings.InsertKeepsOrder | controllers/routes/admin_apis.py:192 | inserting into a newest-first list keeps it newest first |
| Bookings.NewestFirst | controllers/routes/admin_apis.py:192 | the result is a permutation of the input ordered by descending parking time |
| Bookings.NewestFirstOf | controllers/routes/user_apis.py:142 | a set of reservation ids listed newest first, each exactly once |
| AdminApis.WithNewSpotsShape | controllers/routes/admin_apis.py:27-31 | adding n spots keeps every existing spot and adds exactly the keys [from, from+n), each an Available spot of the lot |
| AdminApis.WithNewSpotsCounts | controllers/routes/admin_apis.py:27-31 | the lot gains max(n, 0) spots and no other lot's spots change |
| AdminApis.WithNewSpotsKeepsOccupancy | controllers/routes/admin_apis.py:27-31 | adding Available spots keeps occupancy agreeing with the reservations |
| AdminApis.AddAvailableSpots | controllers/routes/admin_apis.py:28-31 | the loop inserts the spots of WithNewSpots and advances the spot key by max(n, 0) |
| AdminApis.CreateKeepsCountsIff | controllers/routes/admin_apis.py:18-31 | after a creation the stored counts agree with the spots if and only if the requested count is not negative |
| AdminApis.CreateLot | controllers/routes/admin_apis.py:9-37 | the first missing field is refused by name with nothing changed; success exactly when all four are present, adding the lot under the next key with its Available spots |
| AdminApis.InsertLot | controllers/routes/admin_apis.py:18-25 | the lot row is stored under the next lot key, which was unused, and the invariants are kept |
| AdminApis.AddLotSpots | controllers/routes/admin_apis.py:27-31 | the lot gains the Available spots of WithNewSpots from the next spot key, and the invariants are kept |
| AdminApis.Edited | controllers/routes/admin_apis.py:71-79 | the lot with each field present in the request overwritten and every other field kept |
| AdminApis.GrowKeepsCounts | controllers/routes/admin_apis.py:81-83 | growing a lot by the difference keeps the stored counts in agreement |
| AdminApis.ShrinkKeepsCounts | controllers/routes/admin_apis.py:84-90 | removing the difference in spots of the lot keeps the stored counts in agreement |
| AdminApis.SameCountKeepsCounts | controllers/routes/admin_apis.py:78-90 | an unchanged count with only other fields edited keeps the counts in agreement |
| AdminApis.NegativeCountRefused | controllers/routes/admin_apis.py:84-87 | while the counts agree, a negative new count always trips the "cannot reduce" guard |
| AdminApis.RemovingAvailableKeepsOccupancy | controllers/routes/admin_apis.py:85-89 | deleting only Available spots keeps occupancy agreeing |
| AdminApis.RemoveAvailableSpots | controllers/routes/admin_apis.py:85-89 | the loop deletes exactly `count` Available spots of the lot and nothing else |
| AdminApis.ResizedAs | controllers/routes/admin_apis.py:80-90 | growth adds the difference as fresh Available spots; shrinking removes exactly that many Available spots of the lot and nothing else; an equal count changes nothing |
| AdminApis.GrowPreserves | controllers/routes/admin_apis.py:81-83 | growing keeps the keys fresh, occupancy, the spot→lot references and the count agreement |
| AdminApis.GrowLot | controllers/routes/admin_apis.py:81-83 | adds exactly the new-minus-old Available spots under fresh keys, keeping the invariants and the count agreement |
| AdminApis.DropLotSpots | controllers/routes/admin_apis.py:88-89 | deletes exactly `count` Available spots of the lot and nothing else, keeping the invariants |
| AdminApis.ShrinkLot | controllers/routes/admin_apis.py:84-89 | removes exactly old-minus-new Available spots of the lot, keeping the invariants and the count agreement |
| AdminApis.ResizeLot | controllers/routes/admin_apis.py:78-90 | refuses exactly when the lot has fewer Available spots than the reduction, changing nothing; otherwise resizes as ResizedAs says |
| AdminApis.StoreLot | controllers/routes/admin_apis.py:71-76 | the edited row replaces the lot's row, nothing else changes, and the invariants are kept |
| AdminApis.EditLot | controllers/routes/admin_apis.py:63-93 | unknown lot refused as not found; shrinking past the Available spots refused; each refusal changes nothing; success exactly when neither applies, and then the given fields are updated (Edited) and the spots resized (ResizedAs), keeping the invariants and the count agreement |
| AdminApis.WithoutLotSpots | controllers/routes/admin_apis.py:109 | after the bulk delete (WithoutLot) the lot has no spot and every other lot keeps exactly its spots |
| AdminApis.DeletePreserves | controllers/routes/admin_apis.py:104-111 | deleting a lot with no Occupied spot, together with its spots, keeps the invariants and the count agreement |
| AdminApis.DeleteLot | controllers/routes/admin_apis.py:97-116 | unknown lot refused as not found; a lot with an Occupied spot refused; success exactly when neither applies, and then the lot and exactly its spots (WithoutLot) are removed |
| AdminViews.LotViewOf | controllers/routes/admin_apis.py:45-58 | total is the lot's actual spot count, available and occupied are the status counts and add up to it, and the spots are listed with their statuses in ascending id |
| AdminViews.LotViewsListEveryLot | controllers/routes/admin_apis.py:41-59 | every lot appears once, in ascending id, with its view |
| AdminViews.ViewLots | controllers/routes/admin_apis.py:41-59 | every lot appears once, in ascending id, with its view: name, price, spot counts and its spots with their statuses (LotViewsOf, SpotViews) |
| AdminViews.ActiveOf | controllers/routes/admin_apis.py:126 | the ids of the user's active reservations, whose lowest id the viewer shows |
| AdminViews.UserInfoOf | controllers/routes/admin_apis.py:125-150 | roles are exactly the held roles (RoleNames); "Parked" exactly when the user has an active reservation, whose time, spot and lot are then shown when they exist; otherwise all three are absent |
| AdminViews.ParkedUserHasOccupiedSpot | controllers/routes/admin_apis.py:126-138 | while the invariants hold a parked user's spot exists, is Occupied, and its lot name is shown |
| AdminViews.UserInfosListEveryUser | controllers/routes/admin_apis.py:120-152 | every user appears once, in ascending id, with their entry |
| AdminViews.ViewUsers | controllers/routes/admin_apis.py:120-152 | every user appears once, in ascending id, with their entry (UserInfosOf) |
| AdminViews.StoredSpots | controllers/routes/admin_apis.py:161 | the sum of the stored number_of_spots of the listed lots |
| AdminViews.StatusCount | controllers/routes/admin_apis.py:162 | the number of spots in a status, counted lot by lot over the listed lots |
| AdminViews.CompletedCost | controllers/routes/admin_apis.py:172-173 | a reservation contributes its cost to the revenue exactly when it is completed |
| AdminViews.Revenue | controllers/routes/admin_apis.py:172-173 | the summed cost of the listed completed reservations |
| AdminViews.DashboardSummary | controllers/routes/admin_apis.py:156-185 | lot and user totals are the table sizes; the spot total is the sum of the stored number_of_spots over all lots; occupied is counted lot by lot; available is total minus occupied; active users counts the active reservations; revenue sums the completed costs. What a caller can rely on follows from DashboardCountsAgree (available is the real Available count under the invariants), ActiveMatchesOccupied (active users equals the Occupied spots), StoredSpotsSplit and DashboardNegativeCount |
| AdminViews.StatusCountIsUnion | controllers/routes/admin_apis.py:162 | counting lot by lot over distinct lots counts each spot of those lots once |
| AdminViews.SpotsOfAllLots | controllers/routes/admin_apis.py:162 | when every lot is listed, the spots of the listed lots are all spots |
| AdminViews.StoredSpotsSplit | controllers/routes/admin_apis.py:161-163 | while counts agree, the stored total is the Available count plus the Occupied count |
| AdminViews.SpotsOfActiveCount | controllers/routes/admin_apis.py:166 | reservations on pairwise different spots occupy as many spots as there are reservations |
| AdminViews.ActiveMatchesOccupied | controllers/routes/admin_apis.py:162-166 | while occupancy agrees, there are as many active reservations as Occupied spots |
| AdminViews.DashboardCountsAgree | controllers/routes/admin_apis.py:159-166 | occupied is the number of Occupied spots, active users equals occupied, and when the counts agree available is the number of Available spots |
| AdminViews.DashboardNegativeCount | controllers/routes/admin_apis.py:161-163 | a lot stored with a negative count and no spots gives a negative total and a negative available figure |
| AdminViews.Contribution | controllers/routes/admin_apis.py:220-226 | a reservation adds its cost to a lot exactly when it is completed and its spot exists in that lot (the inner join) |
| AdminViews.LotRevenueOver | controllers/routes/admin_apis.py:220-226 | the summed contributions of the listed reservations to one lot |
| AdminViews.LotRevenueZero | controllers/routes/admin_apis.py:220-226 | a lot with no completed reservation on its spots earns 0, the `or 0` of an empty sum |
| AdminViews.RevenueRows | controllers/routes/admin_apis.py:218-231 | one row per listed lot, carrying that lot's name and its revenue over all reservations |
| AdminViews.RevenueByLot | controllers/routes/admin_apis.py:212-233 | one row per lot, in ascending id, carrying its name and the summed cost of the completed reservations on its spots |
| AdminViews.LotsRevenueOfNone | controllers/routes/admin_apis.py:219-226 | no reservations give no revenue |
| AdminViews.LotsRevenueSplit | controllers/routes/admin_apis.py:219-226 | the lots' revenue is the first reservation's share plus the rest |
| AdminViews.ShareOnce | controllers/routes/admin_apis.py:219-226 | over distinct lots, a completed reservation is credited once to the lot of its spot and nowhere else |
| AdminViews.RevenueConserved | controllers/routes/admin_apis.py:219-226 | credited revenue plus revenue credited to no listed lot is the whole completed revenue |
| AdminViews.RevenueRowsTotal | controllers/routes/admin_apis.py:218-231 | the revenue column sums to the listed lots' revenue |
| AdminViews.RevenueByLotAddsUp | controllers/routes/admin_apis.py:212-233 | the per-lot revenues plus the revenue of reservations whose spot is gone equal the dashboard's total revenue |
| AdminViews.NothingUnattributed | controllers/routes/admin_apis.py:219-226 | when every completed reservation's spot still exists, no revenue goes uncredited |
| AdminViews.BookingOf | controllers/routes/admin_apis.py:195-208 | the reservation's own columns are copied; the user's name and e-mail, the spot id and the lot's name are present exactly when those rows exist, and are then their values |
| AdminViews.BookingsListEveryReservation | controllers/routes/admin_apis.py:189-209 | every reservation appears exactly once, newest first |
| AdminViews.AllBookings | controllers/routes/admin_apis.py:189-209 | every reservation appears exactly once, newest first, with its record (BookingsOf) |
| UserApis.StatusChangeKeepsCounts | controllers/routes/user_apis.py:90 | changing a spot's status keeps the stored counts in agreement |
| UserApis.ReserveKeepsOccupancy | controllers/routes/user_apis.py:85-93 | occupying an Available spot with a new active reservation keeps occupancy agreeing |
| UserApis.ReserveSpot | controllers/routes/user_apis.py:67-100 | missing or zero lot id refused; a lot without Available spots refused; otherwise the lowest-id Available spot becomes Occupied by a new active reservation of the caller starting now; the invariants and count agreement are kept |
| UserApis.CallerActiveOn | controllers/routes/user_apis.py:112-114 | empty exactly when the caller holds no active reservation on the spot |
| UserApis.Closed | controllers/routes/user_apis.py:118-124 | the released reservation: exit time now, the computed cost, completed |
| UserApis.ReleaseKeepsOccupancy | controllers/routes/user_apis.py:118-127 | closing the active reservation and freeing its spot keeps occupancy agreeing, and nobody holds the spot any more |
| UserApis.ReleaseSpot | controllers/routes/user_apis.py:103-134 | missing or zero spot id refused; no active reservation of the caller on the spot refused; otherwise that reservation is completed at now with cost Cost(start, now, lot price), the spot becomes Available and the caller no longer holds it |
| UserApis.ListingWithinTotal | controllers/routes/user_apis.py:22-28 | while counts agree, available lies between 0 and the total, and the difference is the Occupied count |
| UserApis.ListingsListEveryLot | controllers/routes/user_apis.py:16-30 | every lot appears once, in ascending id, with its listing |
| UserApis.ViewLots | controllers/routes/user_apis.py:16-30 | every lot appears once, in ascending id, with its listing: name, price, the stored number_of_spots and the Available count (ListingsOf, LotListingOf) |
| UserApis.ReservationsOf | controllers/routes/user_apis.py:142 | exactly the ids of the reservations whose user is the caller |
| UserApis.HistoryOf | controllers/routes/user_apis.py:145-154 | the reservation's own columns are copied; the spot id and the lot's name are present exactly when those rows exist, and are then their values |
| UserApis.HistoryListsOwnReservations | controllers/routes/user_apis.py:138-156 | exactly the caller's reservations, each once, newest first |
| UserApis.ParkHistory | controllers/routes/user_apis.py:138-156 | exactly the caller's reservations, each once, newest first, with their records (HistoriesOf) |
| UserApis.SummaryStep | controllers/routes/user_apis.py:171-179 | one loop iteration: a reservation without an exit time changes nothing; one with an exit time adds its duration and cost, and one use of its lot's name when its spot and lot exist |
| UserApis.SummaryFold | controllers/routes/user_apis.py:166-179 | the running totals after the listed reservations, taken in order |
| UserApis.SummaryOf | controllers/routes/user_apis.py:160-179 | the totals over the user's reservations in ascending id order, the park count being their number |
| UserApis.ExitedCount | controllers/routes/user_apis.py:172 | the number of reservations with an exit time is between 0 and the number listed |
| UserApis.SummaryFoldFacts | controllers/routes/user_apis.py:166-179 | the running totals keep the park count; every usage entry is an existing lot's name counted between 1 and the number of exited reservations; parked time is not negative when no exit precedes its start |
| UserApis.LotNameOf | controllers/routes/user_apis.py:176-177 | the name of the lot of a reservation's spot, when both rows exist |
| UserApis.ExitedCost | controllers/routes/user_apis.py:172-174 | the summed cost of the listed reservations that have an exit time |
| UserApis.ExitedSeconds | controllers/routes/user_apis.py:172-173 | the summed parked seconds of the listed reservations that have an exit time |
| UserApis.UsageCount | controllers/routes/user_apis.py:172-179 | the number of listed reservations with an exit time credited to a lot name |
| UserApis.SummaryFoldTotals | controllers/routes/user_apis.py:171-179 | only reservations with an exit time count: the cost and parked time are their sums, and a lot name has a usage entry exactly when some of them are credited to it, counting exactly those |
| UserApis.SummaryOfFacts | controllers/routes/user_apis.py:160-188 | the park count is the caller's number of reservations; the cost and parked time are the sums over those with an exit time; each usage entry counts exactly the exited reservations credited to an existing lot of that name, between 1 and the park count |
| UserApis.SummaryFoldExtend | controllers/routes/user_apis.py:171-179 | one more loop iteration applies exactly one step to the running totals |
| UserApis.FoldSummary | controllers/routes/user_apis.py:166-179 | the accumulator loop ends with the totals of the listed reservations taken in order |
| UserApis.UserSummary | controllers/routes/user_apis.py:160-188 | the handler computes exactly the summary of the caller's reservations in ascending id order |
| AuthenApis.RolesNamedAtMostOne | controllers/routes/authen_apis.py:84 | while role names are unique, at most one role carries a given name |
| AuthenApis.AddUserKeepsUnique | controllers/routes/authen_apis.py:76-98 | adding a user with an untaken name and e-mail keeps names and e-mails unique |
| AuthenApis.AddRoleKeepsUnique | controllers/routes/authen_apis.py:84-89 | adding a role under an unused name keeps role names unique |
| AuthenApis.EnsureUserRole | controllers/routes/authen_apis.py:84-89 | the existing "user" role is reused with nothing changed, otherwise it is created under the next key; afterwards exactly one role has that name |
| AuthenApis.AddUser | controllers/routes/authen_apis.py:91-98 | the user is stored under the next user key with the hashed password and the "user" role linked to them, the invariants are kept |
| AuthenApis.Register | controllers/routes/authen_apis.py:70-107 | missing fields, a taken name, a taken e-mail and a password under 6 characters are refused in that order, each exactly when it applies, with nothing changed; success exactly when none applies, and then the user is stored with the hashed password, linked by one new user_roles row to the only "user" role, and the role table changes only by that role's creation when it was missing |
| AuthenApis.MatchesAtMostTwo | controllers/routes/authen_apis.py:44 | while e-mails and names are unique, a login matches at most two users: one by e-mail and one by name |
| AuthenApis.Login | controllers/routes/authen_apis.py:34-67 | missing credentials refused; no user matching by e-mail or name (Matches) refused; a failed hash check on the lowest-id match refused; success exactly when none applies, returning that lowest-id match |
| AuthenApis.RegisteredUserCanLogIn | controllers/routes/authen_apis.py:44-49 | a freshly stored user logs in with their password, by name or by e-mail, when no earlier user matches it |
| AuthenApis.LoginPrefersEarlierUser | controllers/routes/authen_apis.py:44 | a login matching one user's e-mail and another's name picks the earlier user |
| Scenarios.NewLotAvailable | controllers/routes/admin_apis.py:27-31 | a new two-spot lot has exactly its two new spots Available |
| Scenarios.SetStatusAvailable | controllers/routes/user_apis.py:90 | occupying a spot removes it from its lot's Available set and freeing adds it, nothing else changes |
| Scenarios.OnlyActive | controllers/routes/user_apis.py:112-114 | while occupancy agrees, an active reservation is the only one of its user on its spot |
| Scenarios.OpenTwoSpotLot | controllers/routes/admin_apis.py:9-37 | a lot created with two spots has exactly two Available spots with consecutive keys |
| Scenarios.FillTwoSpotLot | controllers/routes/user_apis.py:67-100 | in a new two-spot lot two reservations succeed and the third is refused for want of spots |
| Scenarios.ReleaseAndRebook | controllers/routes/user_apis.py:103-134 | releasing after one hour bills one hour at the lot price, a second release is refused, and the next reservation gets the freed spot |
| Scenarios.TwoSpotLot | controllers/routes/user_apis.py:67-134 | the two sequences above in order on one database |

## Left out

- HTTP, JSON and Flask-RESTful plumbing: request bodies are `Option` fields and responses are `Outcome` values carrying a `Reason`. A missing or malformed JSON body is not modelled: it raises a server error in the lot-creation and lot-editing handlers, and in the reserve and release handlers it is answered with a 401 carrying the exception text by the `user_required` wrapper, which turns any exception of the wrapped handler into that reply. A field present with a JSON `null` is modelled as absent, although the source's `'key' in data` checks let it through: a `null` login name then matches no user and the source answers 404 "User does not exist" where the model answers CredentialsRequired, and a `null` registration password reaches `len` and raises.
- JWT issuing and decoding, token expiry and the roles claim: Login returns the user id instead of a token. The `[0]` lookup of the first role, which fails for a user without roles, is not modelled.
- The caller lookup by the e-mail in the token: handlers take the caller's user id.
- The `admin_required` and `user_required` decorators: the role check is a precondition, and their 403 responses are not modelled.
- Werkzeug password hashing: it is the `hash` and `checkHash` parameters.
- Clock reads (`datetime.utcnow`): they are the `now` parameter.
- Floating point: prices and costs are exact integers in sub-units.
- AdminApis.EditLot: does not model the `float(...)` conversion of an edited price.
- UserApis.UserSummary: reports parked time in seconds, not in hours rounded to two decimals.
- AdminApis.EditLot: the spots removed when shrinking are any Available spots of the lot, not the first ones in the order the unordered query happens to return.
- Role order in the user viewer and the login reply: the model uses a set of role names.
- Concurrency and transactions: each handler is one atomic step.
- AdminApis.CreateLot: commits the lot (admin_apis.py:25) and then its spots (admin_apis.py:31) in the source, and is modelled as one step, because nothing between the two commits can fail in the model; a failure there in the source (a non-integer `number_of_spots` reaching `range`) leaves a lot with no spots, which the model does not capture.
- AuthenApis.Register: commits a newly made "user" role (authen_apis.py:89) before committing the user (authen_apis.py:98), and is modelled as one step, because nothing between the two commits can fail in the model; a role left without its user after a failed second commit is not captured.
- The 500 path of lot deletion: the deletion is modelled as always committing.
- Primary-key reuse: keys come from counters that never go back, whereas SQLite may reuse the largest rowid after a deletion.
- The declared reservation→spot foreign key: the handlers break it when they delete spots that completed reservations reference, so only active reservations are proved to reference existing spots.
- UserApis.ReleaseSpot: does not require the release time to be at or after the parking time; a clock moving backwards gives a negative duration.
- CSV export, Celery tasks, mail, database initialisation, the logout endpoint and configuration: outside the modelled core.
