/**
 Passengers (`Kisi`) as the ship sees them. Apart from who they are, the only
 thing the ship observes of a passenger is whether they are dead at the moment
 it checks (`Kisi.olduMu`), which is given with each check.
 */
module Passengers {

  /**
   A passenger. `id` stands for the identity of the `Kisi` object, so two
   passengers with the same name are still told apart.
   */
  datatype Passenger = Passenger(id: nat, name: string)

  /**
   The passengers of `ps` that are not dead, in their original order: the list
   that `removeIf(Kisi::olduMu)` leaves behind.
   */
  function Survivors<P(!new)>(ps: seq<P>, isDead: P -> bool): (r: seq<P>)
    ensures |r| <= |ps|
    ensures forall x :: x in r <==> x in ps && !isDead(x)
    ensures multiset(r) <= multiset(ps)
  {
    if ps == [] then []
    else
      assert ps == [ps[0]] + ps[1..];
      var rest := Survivors(ps[1..], isDead);
      if isDead(ps[0]) then rest else [ps[0]] + rest
  }

  /** The filter is stable: it treats the two halves of a list independently and keeps their order. */
  lemma {:induction false} SurvivorsAppend<P(!new)>(a: seq<P>, b: seq<P>, isDead: P -> bool)
    ensures Survivors(a + b, isDead) == Survivors(a, isDead) + Survivors(b, isDead)
  {
    if a == [] {
      assert a + b == b;
    } else {
      assert (a + b)[0] == a[0];
      assert (a + b)[1..] == a[1..] + b;
      SurvivorsAppend(a[1..], b, isDead);
    }
  }

  /** A list with nobody dead on it passes the filter unchanged. */
  lemma {:induction false} SurvivorsOfLiving<P(!new)>(ps: seq<P>, isDead: P -> bool)
    requires forall i :: 0 <= i < |ps| ==> !isDead(ps[i])
    ensures Survivors(ps, isDead) == ps
  {
    if ps != [] {
      assert forall i :: 0 <= i < |ps[1..]| ==> ps[1..][i] == ps[i + 1];
      SurvivorsOfLiving(ps[1..], isDead);
      assert !isDead(ps[0]);
      assert ps == [ps[0]] + ps[1..];
    }
  }

  /** Filtering changes nothing exactly when nobody in the list is dead. */
  lemma {:induction false} SurvivorsUnchangedIffAllAlive<P(!new)>(ps: seq<P>, isDead: P -> bool)
    ensures Survivors(ps, isDead) == ps <==> forall i :: 0 <= i < |ps| ==> !isDead(ps[i])
  {
    if forall i :: 0 <= i < |ps| ==> !isDead(ps[i]) {
      SurvivorsOfLiving(ps, isDead);
    } else {
      var i :| 0 <= i < |ps| && isDead(ps[i]);
      assert ps[i] in ps;
    }
  }

  /** The list becomes empty exactly when every passenger on it is dead. */
  lemma SurvivorsEmptyIffAllDead<P(!new)>(ps: seq<P>, isDead: P -> bool)
    ensures Survivors(ps, isDead) == [] <==> forall x :: x in ps ==> isDead(x)
  {
    if Survivors(ps, isDead) != [] {
      assert Survivors(ps, isDead)[0] in Survivors(ps, isDead);
    }
  }

  /** Checking twice with the same verdicts removes nobody the first check kept. */
  lemma {:induction false} SurvivorsIdempotent<P(!new)>(ps: seq<P>, isDead: P -> bool)
    ensures Survivors(Survivors(ps, isDead), isDead) == Survivors(ps, isDead)
  {
    var r := Survivors(ps, isDead);
    assert forall i :: 0 <= i < |r| ==> r[i] in r;
    SurvivorsUnchangedIffAllAlive(r, isDead);
  }
}
