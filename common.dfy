/** Small helpers shared by every module: an optional value, and the ascending order in
    which the relational store hands back the rows of a table when no ORDER BY is given. */
module Common {

  /** A column or request field that may be absent (NULL / missing JSON key). */
  datatype Option<+T> = None | Some(value: T)

  /** A non-empty set has a member. */
  lemma Inhabited(s: set<int>)
    requires s != {}
    ensures exists x :: x in s
  {
    if forall x :: x !in s {
      assert false;
    }
  }

  /** Every non-empty finite set of integers has a least element. */
  lemma {:induction false} LeastExists(s: set<int>)
    requires s != {}
    ensures exists m :: m in s && forall x :: x in s ==> m <= x
  {
    Inhabited(s);
    var y :| y in s;
    var rest := s - {y};
    if rest == {} {
      forall x | x in s
        ensures y <= x
      {
        assert x !in rest;
      }
    } else {
      LeastExists(rest);
      var m :| m in rest && forall x :: x in rest ==> m <= x;
      var least := if y < m then y else m;
      forall x | x in s
        ensures least <= x
      {
        if x != y {
          assert x in rest;
        }
      }
      assert least in s;
    }
  }

  /** The least element of a non-empty set: the row `ORDER BY id ASC ... first()` picks. */
  function Least(s: set<int>): (m: int)
    requires s != {}
    ensures m in s
    ensures forall x :: x in s ==> m <= x
  {
    LeastExists(s);
    var m :| m in s && forall x :: x in s ==> m <= x;
    m
  }

  /** The elements of `s` in ascending order, each exactly once. */
  function Ascending(s: set<int>): (r: seq<int>)
    ensures |r| == |s|
    ensures forall x :: x in r <==> x in s
    ensures forall i, j :: 0 <= i < j < |r| ==> r[i] < r[j]
    decreases |s|
  {
    if s == {} then []
    else
      var m := Least(s);
      [m] + Ascending(s - {m})
  }

  /** Listing a set in ascending order mentions each member exactly once. */
  lemma {:induction false} AscendingOnce(s: set<int>)
    ensures forall x :: multiset(Ascending(s))[x] == (if x in s then 1 else 0)
    decreases |s|
  {
    if s != {} {
      var m := Least(s);
      AscendingOnce(s - {m});
      assert Ascending(s) == [m] + Ascending(s - {m});
      assert multiset(Ascending(s)) == multiset{m} + multiset(Ascending(s - {m}));
    }
  }
}
