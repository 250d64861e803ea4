/** The least element of a set of keys: std::map is iterated in key order. */
module LeastElement {

  predicate IsLeast(t: int, s: set<int>) {
    t in s && forall u :: u in s ==> t <= u
  }

  lemma HasElement(s: set<int>)
    ensures s == {} || exists t :: t in s
  {
    if forall t :: t !in s { assert s == {}; }
  }

  lemma {:induction false} LeastExists(s: set<int>)
    requires s != {}
    ensures exists t :: IsLeast(t, s)
  {
    HasElement(s);
    var t :| t in s;
    var s' := s - {t};
    assert forall u :: u in s ==> u == t || u in s';
    if s' == {} {
      assert IsLeast(t, s);
    } else {
      LeastExists(s');
      var u :| IsLeast(u, s');
      assert IsLeast(if t < u then t else u, s);
    }
  }

  ghost function Least(s: set<int>): (t: int)
    requires s != {}
    ensures IsLeast(t, s)
  {
    LeastExists(s);
    var t :| IsLeast(t, s);
    t
  }

  method PickLeast(s: set<int>) returns (t: int)
    requires s != {}
    ensures t == Least(s)
  {
    LeastExists(s);
    t :| t in s && IsLeast(t, s);
  }
}
