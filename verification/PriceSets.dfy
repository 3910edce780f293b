/** Extreme elements of finite sets of prices. */
module PriceSets {

  lemma Pick(s: set<real>) returns (x: real)
    requires s != {}
    ensures x in s
  {
    if forall y: real :: y !in s {
      EmptyWithoutMembers(s);
    }
    x :| x in s;
  }

  lemma EmptyWithoutMembers(s: set<real>)
    requires forall y: real :: y !in s
    ensures s == {}
  {
    forall y: real ensures y in s <==> y in {} {}
  }

  ghost predicate IsMax(s: set<real>, m: real) { m in s && forall y :: y in s ==> y <= m }

  lemma {:induction false} MaxExists(s: set<real>) returns (m: real)
    requires s != {}
    ensures IsMax(s, m)
    decreases |s|
  {
    var x := Pick(s);
    var rest := s - {x};
    m := x;
    if rest != {} {
      var best := MaxExists(rest);
      m := if x < best then best else x;
    }
    forall y | y in s ensures y <= m { assert y == x || y in rest; }
  }

  lemma MaxWitness(s: set<real>)
    requires s != {}
    ensures exists m :: m in s && forall y :: y in s ==> y <= m
  {
    var m := MaxExists(s);
  }

  function MaxOf(s: set<real>): (m: real)
    requires s != {}
    ensures m in s && forall y :: y in s ==> y <= m
  {
    MaxWitness(s);
    var m :| m in s && forall y :: y in s ==> y <= m;
    m
  }

  lemma MinExists(s: set<real>)
    requires s != {}
    ensures exists m :: m in s && forall y :: y in s ==> m <= y
  {
    var negated := set y | y in s :: -y;
    var x := Pick(s);
    assert -x in negated;
    var m := MaxExists(negated);
    assert -m in s;
    forall y | y in s ensures -m <= y { assert -y in negated; }
  }

  function MinOf(s: set<real>): (m: real)
    requires s != {}
    ensures m in s && forall y :: y in s ==> m <= y
  {
    MinExists(s);
    var m :| m in s && forall y :: y in s ==> m <= y;
    m
  }
}
