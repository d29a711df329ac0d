/** Counting the threads that are in a given kind of place. */
module Counting {

  ghost function Where<P>(places: map<nat, P>, p: P -> bool): set<nat> {
    set t | t in places && p(places[t])
  }

  /** Moving one thread changes the count by what that thread adds and takes away. */
  lemma Recount<P>(places: map<nat, P>, p: P -> bool, t: nat, place: P)
    requires t in places
    ensures |Where(places[t := place], p)| + (if p(places[t]) then 1 else 0)
         == |Where(places, p)| + (if p(place) then 1 else 0)
  {
    var before, after := Where(places, p), Where(places[t := place], p);
    assert after - {t} == before - {t};
    assert |before - {t}| == |before| - if t in before then 1 else 0;
    assert |after - {t}| == |after| - if t in after then 1 else 0;
  }

  lemma NoneThere<P>(places: map<nat, P>, p: P -> bool)
    requires |Where(places, p)| == 0
    ensures forall u :: u in places ==> !p(places[u])
  {
    forall u | u in places ensures !p(places[u]) {
      assert u in Where(places, p) <==> p(places[u]);
    }
  }

  lemma OneThere<P>(places: map<nat, P>, p: P -> bool, t: nat)
    requires t in places && p(places[t])
    ensures |Where(places, p)| > 0
    ensures |Where(places, p)| == 1 ==> forall u :: u in places && p(places[u]) ==> u == t
  {
    var all := Where(places, p);
    assert t in all && |all - {t}| == |all| - 1;
    if |all| == 1 {
      forall u | u in places && p(places[u]) ensures u == t {
        assert u in all && (u != t ==> u in all - {t});
      }
    }
  }

  lemma AnotherThere<P>(places: map<nat, P>, p: P -> bool, t: nat) returns (u: nat)
    requires |Where(places, p)| > (if t in places && p(places[t]) then 1 else 0)
    ensures u in places && u != t && p(places[u])
  {
    var rest := Where(places, p) - {t};
    assert |rest| > 0;
    u :| u in rest;
  }

  /** Only the last place counts, and moving to where one is changes nothing. */
  lemma MovedTwice<P>(places: map<nat, P>, t: nat, a: P, b: P)
    requires t in places
    ensures places[t := a][t := b] == places[t := b]
    ensures places[t] == b ==> places[t := b] == places
  {
  }
}
