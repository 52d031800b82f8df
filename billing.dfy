/** The cost of a completed reservation: the parked duration in hours times the lot's hourly
    price, rounded to the currency's smallest unit (two decimal places of the price unit).
    Times are whole seconds and prices are whole sub-units per hour, so the cost is the exact
    rational duration * price / 3600 rounded to the nearest integer, halves to the even
    neighbour as Python's round does. */
module Billing {

  const SecondsPerHour: int := 3600

  /** q is n / 3600 rounded to the nearest integer, a tie going to the even neighbour. */
  ghost predicate IsRoundedPerHour(n: int, q: int)
  {
    && -SecondsPerHour <= 2 * n - 2 * SecondsPerHour * q <= SecondsPerHour
    && ((2 * n - 2 * SecondsPerHour * q == SecondsPerHour || 2 * n - 2 * SecondsPerHour * q == -SecondsPerHour) ==> q % 2 == 0)
  }

  /** n / 3600 rounded half to even. */
  function RoundPerHour(n: int): (q: int)
    ensures IsRoundedPerHour(n, q)
  {
    var whole, rest := n / SecondsPerHour, n % SecondsPerHour;
    if 2 * rest < SecondsPerHour then whole
    else if 2 * rest > SecondsPerHour then whole + 1
    else if whole % 2 == 0 then whole
    else whole + 1
  }

  /** Rounding half to even has exactly one answer. */
  lemma RoundedPerHourUnique(n: int, q1: int, q2: int)
    requires IsRoundedPerHour(n, q1) && IsRoundedPerHour(n, q2)
    ensures q1 == q2
  {
    if q1 != q2 {
      assert false;
    }
  }

  /** The charge for parking from `parkingTime` to `exitTime` at `price` per hour:
      (exitTime - parkingTime) / 3600 * price rounded half to even. */
  function Cost(parkingTime: int, exitTime: int, price: int): (c: int)
    ensures IsRoundedPerHour((exitTime - parkingTime) * price, c)
  {
    RoundPerHour((exitTime - parkingTime) * price)
  }

  /** A non-negative duration at a non-negative price never costs less than nothing. */
  lemma CostNonNegative(parkingTime: int, exitTime: int, price: int)
    requires parkingTime <= exitTime && 0 <= price
    ensures Cost(parkingTime, exitTime, price) >= 0
  {
    assert (exitTime - parkingTime) * price >= 0;
  }

  /** Whole hours are billed exactly: h hours at p per hour cost h * p. */
  lemma CostWholeHours(parkingTime: int, hours: int, price: int)
    ensures Cost(parkingTime, parkingTime + hours * SecondsPerHour, price) == hours * price
  {
    var n := (parkingTime + hours * SecondsPerHour - parkingTime) * price;
    assert n == (hours * price) * SecondsPerHour;
    RoundedPerHourUnique(n, Cost(parkingTime, parkingTime + hours * SecondsPerHour, price), hours * price);
  }

  /** A duration whose cost is a whole number of sub-units is not rounded at all. */
  lemma CostExactWhenWhole(parkingTime: int, exitTime: int, price: int)
    requires ((exitTime - parkingTime) * price) % SecondsPerHour == 0
    ensures Cost(parkingTime, exitTime, price) * SecondsPerHour == (exitTime - parkingTime) * price
  {
    var n := (exitTime - parkingTime) * price;
    RoundedPerHourUnique(n, Cost(parkingTime, exitTime, price), n / SecondsPerHour);
  }

  /** At a non-negative price, staying longer never costs less. */
  lemma CostMonotone(parkingTime: int, exit1: int, exit2: int, price: int)
    requires exit1 <= exit2 && 0 <= price
    ensures Cost(parkingTime, exit1, price) <= Cost(parkingTime, exit2, price)
  {
    var n1, n2 := (exit1 - parkingTime) * price, (exit2 - parkingTime) * price;
    assert n2 - n1 == (exit2 - exit1) * price;
    assert (exit2 - exit1) * price >= 0;
    var q1, q2 := Cost(parkingTime, exit1, price), Cost(parkingTime, exit2, price);
    if q1 > q2 {
      assert false;
    }
  }

  /** Two hours at 10.00 per hour cost 20.00, an hour and a half costs 15.00, and the exact
      halves 0.5 and 1.5 of a sub-unit round to 0 and 2. */
  lemma CostExamples(t: int)
    ensures Cost(t, t + 2 * SecondsPerHour, 1000) == 2000
    ensures Cost(t, t + 5400, 1000) == 1500
    ensures Cost(t, t + 1800, 1) == 0
    ensures Cost(t, t + 5400, 1) == 2
  {
    CostWholeHours(t, 2, 1000);
  }
}
