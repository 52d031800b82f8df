/** The order in which booking listings are returned: `ORDER BY parking_time DESC`. The
    database promises no order among rows with equal parking times, and neither does the
    model: it states only that no older reservation comes before a newer one. */
module Bookings {
  import opened Common
  import opened Models

  /** Every id of the listing is a reservation of the table. */
  predicate AllReservations(reservations: map<int, Reservation>, ids: seq<int>)
  {
    forall i :: 0 <= i < |ids| ==> ids[i] in reservations
  }

  /** The listing never places an older reservation before a newer one. */
  predicate NewestFirstOrder(reservations: map<int, Reservation>, ids: seq<int>)
    requires AllReservations(reservations, ids)
  {
    forall i, j :: 0 <= i < j < |ids| ==> reservations[ids[i]].parkingTime >= reservations[ids[j]].parkingTime
  }

  /** Places `id` in a newest-first listing after every reservation at least as new. */
  function InsertByTime(reservations: map<int, Reservation>, id: int, sorted: seq<int>): (r: seq<int>)
    requires id in reservations && AllReservations(reservations, sorted)
    ensures multiset(r) == multiset(sorted) + multiset{id}
    ensures AllReservations(reservations, r)
  {
    if sorted == [] then [id]
    else if reservations[sorted[0]].parkingTime >= reservations[id].parkingTime then
      assert sorted == [sorted[0]] + sorted[1..];
      [sorted[0]] + InsertByTime(reservations, id, sorted[1..])
    else
      [id] + sorted
  }

  /** Inserting into a newest-first listing keeps it newest first. */
  lemma {:induction false} InsertKeepsOrder(reservations: map<int, Reservation>, id: int, sorted: seq<int>)
    requires id in reservations && AllReservations(reservations, sorted)
    requires NewestFirstOrder(reservations, sorted)
    ensures NewestFirstOrder(reservations, InsertByTime(reservations, id, sorted))
  {
    if sorted != [] && reservations[sorted[0]].parkingTime >= reservations[id].parkingTime {
      var rest := InsertByTime(reservations, id, sorted[1..]);
      InsertKeepsOrder(reservations, id, sorted[1..]);
      assert sorted == [sorted[0]] + sorted[1..];
      forall k | 0 <= k < |rest|
        ensures reservations[sorted[0]].parkingTime >= reservations[rest[k]].parkingTime
      {
        assert rest[k] in multiset(rest);
        assert rest[k] == id || rest[k] in multiset(sorted[1..]);
      }
    }
  }

  /** The reservations `ids` listed newest first: each exactly as often as in `ids`. */
  function NewestFirst(reservations: map<int, Reservation>, ids: seq<int>): (r: seq<int>)
    requires AllReservations(reservations, ids)
    ensures multiset(r) == multiset(ids)
    ensures AllReservations(reservations, r) && NewestFirstOrder(reservations, r)
  {
    if ids == [] then []
    else
      assert ids == [ids[0]] + ids[1..];
      InsertKeepsOrder(reservations, ids[0], NewestFirst(reservations, ids[1..]));
      InsertByTime(reservations, ids[0], NewestFirst(reservations, ids[1..]))
  }

  /** A table's reservations (or some of them) listed newest first: every listed id is one of
      them and each of them is listed exactly once. */
  function NewestFirstOf(reservations: map<int, Reservation>, ids: set<int>): (r: seq<int>)
    requires ids <= reservations.Keys
    ensures AllReservations(reservations, r) && NewestFirstOrder(reservations, r)
    ensures |r| == |ids|
    ensures forall x :: multiset(r)[x] == (if x in ids then 1 else 0)
  {
    var asc := Ascending(ids);
    AscendingOnce(ids);
    NewestFirst(reservations, asc)
  }
}
