/** Taking elements out of finite sets. */
module Sets {

  ghost function Pick<T>(s: set<T>): (x: T)
    requires s != {}
    ensures x in s
  {
    var x :| x in s;
    x
  }

  lemma {:induction false} Above(s: set<nat>) returns (x: nat)
    ensures forall y | y in s :: y < x
    decreases |s|
  {
    if s == {} {
      x := 0;
    } else {
      var y := Pick(s);
      var top := Above(s - {y});
      x := if top > y then top else y + 1;
      forall z | z in s ensures z < x {
        assert z == y || z in s - {y};
      }
    }
  }
}
