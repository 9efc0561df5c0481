/**
 The ship driven by an outside simulation: any sequence of the ship's
 operations, in any order, and what stays true along it.
 */
module Lifecycle {
  import opened Calendar
  import opened Passengers
  import opened Spacecraft

  /** A call the driver makes on a ship. */
  datatype Event =
    | Departure                        // cikisYap
    | Hour                             // birSaatIlerle
    | DeathCheck(isDead: Passenger -> bool)    // olumKontroluYap, with each passenger's verdict at that moment
    | Boarding(passenger: Passenger)           // yolcuEkle

  /** The one-step transitions of the lifecycle, staying put included. */
  predicate Step(a: State, b: State) {
    || a == b
    || (a == Waiting && b == EnRoute)
    || (a == EnRoute && b == Arrived)
    || (!a.IsTerminal() && b == Destroyed)
  }

  /** The states a ship in state `a` can reach through any number of steps. */
  predicate Reaches(a: State, b: State) {
    Step(a, b) || (a == Waiting && b == Arrived)
  }

  /** The parts of a ship fixed at construction, the planned arrival time among them, agree. */
  ghost predicate SamePlan<T>(a: Ship<T>, b: Ship<T>) {
    && a.name == b.name && a.origin == b.origin && a.destination == b.destination
    && a.departure == b.departure && a.total == b.total && a.target == b.target
  }

  function Apply<T>(s: Ship<T>, e: Event): Ship<T>
  {
    match e
    case Departure => Depart(s)
    case Hour => AdvanceHour(s)
    case DeathCheck(isDead) => ReconcileDeaths(s, isDead)
    case Boarding(p) => AddPassenger(s, p)
  }

  /** The ship after the driver's calls `es`, in order. */
  function Run<T>(s: Ship<T>, es: seq<Event>): Ship<T>
    decreases |es|
  {
    if es == [] then s else Run(Apply(s, es[0]), es[1..])
  }

  /**
   One call follows the lifecycle, leaves the plan alone, never adds flight
   hours, and keeps a valid ship valid.
   */
  lemma ApplyStep<T>(s: Ship<T>, e: Event)
    ensures Step(s.state, Apply(s, e).state)
    ensures SamePlan(s, Apply(s, e))
    ensures Apply(s, e).remaining <= s.remaining
    ensures Valid(s) ==> Valid(Apply(s, e))
  {
  }

  /** Whatever the driver does, the ship only moves forward through its lifecycle. */
  lemma {:induction false} RunFollowsLifecycle<T>(s: Ship<T>, es: seq<Event>)
    ensures Reaches(s.state, Run(s, es).state)
    decreases |es|
  {
    if es != [] {
      var s1 := Apply(s, es[0]);
      ApplyStep(s, es[0]);
      RunFollowsLifecycle(s1, es[1..]);
      if s1.state == s.state {
      } else {
        assert Step(s.state, s1.state);
      }
    }
  }

  /** No call moves a ship out of an arrived or destroyed state. */
  lemma RunTerminalClosed<T>(s: Ship<T>, es: seq<Event>)
    requires s.state.IsTerminal()
    ensures Run(s, es).state == s.state
  {
    RunFollowsLifecycle(s, es);
  }

  /** The planned arrival time, and everything else fixed at construction, never changes. */
  lemma {:induction false} RunKeepsPlan<T>(s: Ship<T>, es: seq<Event>)
    ensures SamePlan(s, Run(s, es))
    decreases |es|
  {
    if es != [] {
      ApplyStep(s, es[0]);
      RunKeepsPlan(Apply(s, es[0]), es[1..]);
    }
  }

  /** The flight hours left never grow. */
  lemma {:induction false} RunRemainingNonIncreasing<T>(s: Ship<T>, es: seq<Event>)
    ensures Run(s, es).remaining <= s.remaining
    decreases |es|
  {
    if es != [] {
      ApplyStep(s, es[0]);
      RunRemainingNonIncreasing(Apply(s, es[0]), es[1..]);
    }
  }

  /** A valid ship stays valid, so the hours left stay between 0 and the duration. */
  lemma {:induction false} RunKeepsValid<T>(s: Ship<T>, es: seq<Event>)
    requires Valid(s)
    ensures Valid(Run(s, es))
    ensures 0 <= Run(s, es).remaining <= Run(s, es).total
    decreases |es|
  {
    if es != [] {
      ApplyStep(s, es[0]);
      RunKeepsValid(Apply(s, es[0]), es[1..]);
    }
  }

  /**
   A ship as built, driven by any sequence of calls, keeps its planned arrival
   time and the reachable-state invariant: its hours left stay between 0 and
   the duration it was built with.
   */
  lemma BuiltShipStaysValid<T>(name: string, origin: Planet, destination: Planet, departure: T, duration: int,
                               cal: Calendar<T>, originNow: T, destinationNow: T, es: seq<Event>)
    requires duration >= 0
    ensures var s := Create(name, origin, destination, departure, duration, cal, originNow, destinationNow).value;
            && Valid(Run(s, es)) && 0 <= Run(s, es).remaining <= duration
            && Run(s, es).target == s.target
  {
    var s := Create(name, origin, destination, departure, duration, cal, originNow, destinationNow).value;
    RunKeepsValid(s, es);
    RunKeepsPlan(s, es);
  }
}
