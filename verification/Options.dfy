/** The usual optional value, for SQL NULL and Python's None, and the SQL aggregates MIN and MAX. */
module Options {
  datatype Option<+T> = None | Some(value: T)
}

module Aggregates {

  lemma EmptyOrNot(s: set<int>)
    ensures s == {} || exists x :: x in s
  {
    if forall x :: x !in s {
      assert s == {};
    }
  }

  lemma {:induction false} MinExists(s: set<int>) returns (m: int)
    requires s != {}
    ensures m in s && forall x :: x in s ==> m <= x
  {
    EmptyOrNot(s);
    var x :| x in s;
    m := x;
    if s == {x} {
    } else {
      assert s == (s - {x}) + {x};
      var r := MinExists(s - {x});
      if r < x { m := r; }
    }
  }

  /** `MIN` over a non-empty set of rows. */
  function MinOf(s: set<int>): (m: int)
    requires s != {}
    ensures m in s && forall x :: x in s ==> m <= x
  {
    assert exists m :: m in s && forall x :: x in s ==> m <= x by { var m := MinExists(s); }
    var m :| m in s && forall x :: x in s ==> m <= x;
    m
  }

  lemma {:induction false} MaxExists(s: set<int>) returns (m: int)
    requires s != {}
    ensures m in s && forall x :: x in s ==> x <= m
  {
    EmptyOrNot(s);
    var x :| x in s;
    m := x;
    if s == {x} {
    } else {
      assert s == (s - {x}) + {x};
      var r := MaxExists(s - {x});
      if r > x { m := r; }
    }
  }

  /** `MAX` over a non-empty set of rows. */
  function MaxOf(s: set<int>): (m: int)
    requires s != {}
    ensures m in s && forall x :: x in s ==> x <= m
  {
    assert exists m :: m in s && forall x :: x in s ==> x <= m by { var m := MaxExists(s); }
    var m :| m in s && forall x :: x in s ==> x <= m;
    m
  }
}
