/**
 A spaceship (`UzayAraci`) travelling from one planet to another: a four-state
 lifecycle, an hour counter for the flight, a passenger list, and an arrival
 time fixed once at construction.

 Every operation of the ship is a pure function from the ship before the call
 to the ship after it.
 */
module Spacecraft {
  import opened Calendar
  import opened Passengers

  /** Lifecycle states of a ship (`UzayAraci.Durum`). */
  datatype State =
    | Waiting    // BEKLIYOR: on the origin planet, waiting for the departure time
    | EnRoute    // YOLDA: travelling
    | Arrived    // VARDI: reached the destination planet
    | Destroyed  // IMHA: every passenger died, while waiting or while travelling
  {
    /** No operation leaves a terminal state. */
    predicate IsTerminal() {
      this == Arrived || this == Destroyed
    }
  }

  /** The parts of a planet (`Gezegen`) the ship uses; its current time is given separately, as it moves on without the ship. */
  datatype Planet = Planet(name: string, hoursPerDay: int)

  /**
   A ship. The first six fields are fixed at construction; `remaining`, `state`
   and `passengers` change as the ship is driven.
   */
  datatype Ship<T> = Ship(
    name: string,
    origin: Planet,
    destination: Planet,
    departure: T,        // departure time, on the origin's calendar
    total: nat,          // flight duration in hours
    target: T,           // planned arrival time, on the destination's calendar
    remaining: int,      // flight hours still to go
    state: State,
    passengers: seq<Passenger>)  // living and dead passengers, in boarding order

  /** The one error a ship reports, with the message it is raised with. */
  datatype Error = InvalidArgument(message: string)

  datatype Result<R> = Success(value: R) | Failure(error: Error)

  /**
   The states a ship can be in after being built and driven: the hour counter
   stays between 0 and the duration, is untouched until departure and is used
   up on arrival. A ship can be en route with no hours left only when its
   flight lasts zero hours and no hour has yet been stepped.
   */
  predicate Valid<T>(s: Ship<T>) {
    && 0 <= s.remaining <= s.total
    && (s.state == Waiting ==> s.remaining == s.total)
    && (s.state == Arrived ==> s.remaining == 0)
    && (s.state == EnRoute && s.remaining == 0 ==> s.total == 0)
  }

  /**
   Builds a ship, rejecting a negative duration. The arrival time is planned
   once, here: the hours the origin waits from its current time until the
   departure, plus the flight hours, are added to the destination's current
   time, each planet counting in its own hours-per-day.
   */
  function Create<T>(name: string, origin: Planet, destination: Planet, departure: T, duration: int,
                        cal: Calendar<T>, originNow: T, destinationNow: T): (r: Result<Ship<T>>)
    ensures r.Failure? <==> duration < 0
    ensures r.Success? ==>
      && r.value.name == name && r.value.origin == origin && r.value.destination == destination
      && r.value.departure == departure && r.value.total == duration
      && r.value.state == Waiting && r.value.remaining == duration && r.value.passengers == []
      && Valid(r.value)
    ensures r.Success? ==>
      r.value.target == cal.addHours(destinationNow,
                                     cal.hoursUntil(originNow, departure, origin.hoursPerDay) + duration,
                                     destination.hoursPerDay)
  {
    if duration < 0 then
      Failure(InvalidArgument("toplamMesafeSaat negatif olamaz"))
    else
      var waitHours := cal.hoursUntil(originNow, departure, origin.hoursPerDay);
      var target := cal.addHours(destinationNow, waitHours + duration, destination.hoursPerDay);
      Success(Ship(name, origin, destination, departure, duration, target, duration, Waiting, []))
  }

  /** Whether a waiting ship's departure time has come on the origin's calendar (`cikisAninaGeldiMi`). */
  function ReadyToDepart<T>(s: Ship<T>, cal: Calendar<T>, originNow: T): (r: bool)
    ensures r ==> s.state == Waiting
    ensures s.state == Waiting ==> (r <==> cal.compare(originNow, s.departure) >= 0)
  {
    s.state == Waiting && cal.compare(originNow, s.departure) >= 0
  }

  /** Departure (`cikisYap`): a waiting ship starts its flight; in any other state nothing happens. The departure time is not consulted. */
  function Depart<T>(s: Ship<T>): (s': Ship<T>)
    ensures s.state == Waiting ==> s'.state == EnRoute
    ensures s.state != Waiting ==> s' == s
    ensures s' == s.(state := s'.state)
  {
    if s.state == Waiting then s.(state := EnRoute) else s
  }

  /**
   One simulated hour (`birSaatIlerle`): a travelling ship uses up one flight
   hour, if any is left, and arrives once none is left. Ships in other states
   are unaffected.
   */
  function AdvanceHour<T>(s: Ship<T>): (s': Ship<T>)
    ensures s.state != EnRoute ==> s' == s
    ensures s.state == EnRoute ==> s'.remaining == if s.remaining > 0 then s.remaining - 1 else s.remaining
    ensures s.state == EnRoute ==> (s'.state == Arrived <==> s'.remaining == 0)
    ensures s.state == EnRoute ==> s'.state in {EnRoute, Arrived}
    ensures s' == s.(remaining := s'.remaining, state := s'.state)
  {
    if s.state != EnRoute then s
    else
      var left := if s.remaining > 0 then s.remaining - 1 else s.remaining;
      s.(remaining := left, state := if left == 0 then Arrived else s.state)
  }

  /**
   The death check (`olumKontroluYap`): dead passengers leave the list, and a
   ship left with nobody on board is destroyed unless it has already arrived.
   */
  function ReconcileDeaths<T>(s: Ship<T>, isDead: Passenger -> bool): (s': Ship<T>)
    ensures forall x :: x in s'.passengers <==> x in s.passengers && !isDead(x)
    ensures s'.passengers == [] && s.state != Arrived ==> s'.state == Destroyed
    ensures s'.passengers != [] || s.state == Arrived ==> s'.state == s.state
    ensures s' == s.(passengers := s'.passengers, state := s'.state)
  {
    var kept := Survivors(s.passengers, isDead);
    s.(passengers := kept, state := if kept == [] && s.state != Arrived then Destroyed else s.state)
  }

  /** Boarding (`yolcuEkle`): the passenger joins the end of the list, in any state; nothing else changes. */
  function AddPassenger<T>(s: Ship<T>, p: Passenger): (s': Ship<T>)
    ensures |s'.passengers| == |s.passengers| + 1
    ensures s'.passengers[..|s.passengers|] == s.passengers && s'.passengers[|s.passengers|] == p
    ensures s' == s.(passengers := s'.passengers)
  {
    s.(passengers := s.passengers + [p])
  }

  /* Properties of the single operations */

  /** On the reference calendar a ship built at program start, with both planets at hour 0, is due exactly its flight duration after its departure. */
  lemma ArrivalOnSharedClock(name: string, origin: Planet, destination: Planet, departure: int, duration: nat)
    ensures var r := Create<int>(name, origin, destination, departure, duration, AbsoluteHours(), 0, 0);
            r.Success? && r.value.target == departure + duration
  {
  }

  /** On the reference calendar, with planets whose clocks need not read zero, the arrival time carries the offset between the two clocks. */
  lemma ArrivalBetweenClocks(name: string, origin: Planet, destination: Planet, departure: int, duration: nat,
                                originNow: int, destinationNow: int)
    ensures var r := Create<int>(name, origin, destination, departure, duration, AbsoluteHours(), originNow, destinationNow);
            r.Success? && r.value.target - destinationNow == (departure - originNow) + duration
  {
  }

  /** On the reference calendar a ship may depart exactly when it is waiting and the origin's clock has reached the departure hour. */
  lemma ReadyOnSharedClock(s: Ship<int>, now: int)
    ensures ReadyToDepart(s, AbsoluteHours(), now) <==> s.state == Waiting && now >= s.departure
  {
  }

  /** Departing a second time has no further effect. */
  lemma DepartIdempotent<T>(s: Ship<T>)
    ensures Depart(Depart(s)) == Depart(s)
  {
  }

  /** A second death check with the same verdicts changes nothing. */
  lemma ReconcileIdempotent<T>(s: Ship<T>, isDead: Passenger -> bool)
    ensures ReconcileDeaths(ReconcileDeaths(s, isDead), isDead) == ReconcileDeaths(s, isDead)
  {
    SurvivorsIdempotent(s.passengers, isDead);
    SurvivorsEmptyIffAllDead(Survivors(s.passengers, isDead), isDead);
  }

  /** The death check keeps the surviving passengers in boarding order: a passenger who boards last stays last, if alive. */
  lemma ReconcileAfterBoarding<T>(s: Ship<T>, p: Passenger, isDead: Passenger -> bool)
    ensures ReconcileDeaths(AddPassenger(s, p), isDead).passengers
            == ReconcileDeaths(s, isDead).passengers + (if isDead(p) then [] else [p])
  {
    SurvivorsAppend(s.passengers, [p], isDead);
  }

  /** A ship whose passengers are all alive keeps every one of them and its state through a death check. */
  lemma ReconcileWithoutDeaths<T>(s: Ship<T>, isDead: Passenger -> bool)
    requires s.passengers != []
    requires forall i :: 0 <= i < |s.passengers| ==> !isDead(s.passengers[i])
    ensures ReconcileDeaths(s, isDead) == s
  {
    SurvivorsUnchangedIffAllAlive(s.passengers, isDead);
  }

  /** The ship after `n` simulated hours. */
  function AdvanceHours<T>(s: Ship<T>, n: nat): Ship<T>
    decreases n
  {
    if n == 0 then s else AdvanceHours(AdvanceHour(s), n - 1)
  }

  /** A ship that is not travelling, whether waiting, arrived or destroyed, is unaffected by any number of hours. */
  lemma {:induction false} UnaffectedByHours<T>(s: Ship<T>, n: nat)
    requires s.state != EnRoute
    ensures AdvanceHours(s, n) == s
    decreases n
  {
    if n > 0 {
      UnaffectedByHours(AdvanceHour(s), n - 1);
    }
  }

  /** Before its flight hours run out, a travelling ship is still travelling, with one hour fewer for each hour stepped. */
  lemma {:induction false} EnRouteUntilHoursRunOut<T>(s: Ship<T>, n: nat)
    requires s.state == EnRoute && n < s.remaining
    ensures AdvanceHours(s, n) == s.(remaining := s.remaining - n)
    decreases n
  {
    if n > 0 {
      EnRouteUntilHoursRunOut(AdvanceHour(s), n - 1);
    }
  }

  /**
   A travelling ship arrives on the hour its flight hours run out, and a ship
   travelling with no hours left (a zero-hour flight) arrives on the next hour.
   */
  lemma {:induction false} ArrivesOnSchedule<T>(s: Ship<T>)
    requires s.state == EnRoute && 0 <= s.remaining
    ensures var n := if s.remaining == 0 then 1 else s.remaining;
            AdvanceHours(s, n) == s.(remaining := 0, state := Arrived)
  {
    if s.remaining <= 1 {
      assert AdvanceHours(s, 1) == AdvanceHours(AdvanceHour(s), 0);
    } else {
      EnRouteUntilHoursRunOut(s, s.remaining - 1);
      var t := AdvanceHours(s, s.remaining - 1);
      AdvanceHoursSplit(s, s.remaining - 1, 1);
      assert AdvanceHours(t, 1) == AdvanceHours(AdvanceHour(t), 0);
    }
  }

  /** Stepping `m + k` hours is stepping `m` hours and then `k` more. */
  lemma {:induction false} AdvanceHoursSplit<T>(s: Ship<T>, m: nat, k: nat)
    ensures AdvanceHours(s, m + k) == AdvanceHours(AdvanceHours(s, m), k)
    decreases m
  {
    if m > 0 {
      AdvanceHoursSplit(AdvanceHour(s), m - 1, k);
    }
  }

  /**
   The flight hours never run out while the ship is travelling, except for a
   zero-hour flight between its departure and its first hour: a zero
   remaining count does not by itself mean the ship is no longer en route.
   */
  lemma ZeroHourFlightEnRoute<T>(name: string, origin: Planet, destination: Planet, departure: T,
                                    cal: Calendar<T>, originNow: T, destinationNow: T)
    ensures var r := Create<T>(name, origin, destination, departure, 0, cal, originNow, destinationNow);
            && r.Success?
            && Depart(r.value).state == EnRoute && Depart(r.value).remaining == 0
            && AdvanceHour(Depart(r.value)).state == Arrived
  {
  }
}
