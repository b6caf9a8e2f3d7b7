/** The places of a sequence at which something holds, and how many they are. */
module Counting {

  ghost function Places<T(!new)>(p: T -> bool, xs: seq<T>): set<nat> {
    set i: nat | i < |xs| && p(xs[i])
  }

  ghost function Later(places: set<nat>): set<nat> {
    set i | i in places :: i + 1
  }

  lemma {:induction false} LaterCount(places: set<nat>)
    ensures |Later(places)| == |places|
    decreases |places|
  {
    if places == {} {
      assert Later(places) == {};
    } else {
      var i :| i in places;
      var others := places - {i};
      LaterCount(others);
      forall j: nat ensures j in Later(places) <==> j == i + 1 || j in Later(others) {
        if j in Later(places) && j != i + 1 {
          assert j - 1 in others;
        }
      }
      assert Later(places) == Later(others) + {i + 1};
    }
  }

  /** Counting from the front. */
  lemma PlacesCons<T(!new)>(p: T -> bool, xs: seq<T>)
    requires xs != []
    ensures |Places(p, xs)| == (if p(xs[0]) then 1 else 0) + |Places(p, xs[1..])|
  {
    var rest := Places(p, xs[1..]);
    LaterCount(rest);
    forall i: nat ensures i in Places(p, xs) <==> (i == 0 && p(xs[0])) || i in Later(rest) {
      if i > 0 {
        assert i < |xs| ==> xs[i] == xs[1..][i - 1];
        assert i in Later(rest) <==> i - 1 in rest;
      }
    }
    assert Places(p, xs) == (if p(xs[0]) then {0} else {}) + Later(rest);
  }

  lemma PlacesNone<T(!new)>(p: T -> bool)
    ensures Places(p, []) == {}
  {
  }
}
