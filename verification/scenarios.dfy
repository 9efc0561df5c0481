/**
 Complete journeys on the reference calendar, with both planets' clocks at
 hour 0 when the ship is built: a normal flight, destruction in flight,
 destruction while waiting, and planets with different day lengths.
 */
module Scenarios {
  import opened Calendar
  import opened Passengers
  import opened Spacecraft

  const Earth := Planet("Dunya", 24)
  const Mars := Planet("Mars", 24)

  /** Nobody dies. */
  function NoneDead(p: Passenger): bool { false }

  /** Everybody is dead. */
  function AllDead(p: Passenger): bool { true }

  /** The ship of the scenarios: departure at hour 10, a five-hour flight. */
  function Voyager(): Ship<int>
  {
    Create<int>("Voyager", Earth, Mars, 10, 5, AbsoluteHours(), 0, 0).value
  }

  /** With one living passenger, departing and flying five hours brings the ship to its target hour 15. */
  lemma NormalCompletion()
    ensures var s := AdvanceHours(Depart(AddPassenger(Voyager(), Passenger(1, "Ayse"))), 5);
            s.state == Arrived && s.remaining == 0 && s.target == 15 && s.passengers == [Passenger(1, "Ayse")]
    ensures var s := AdvanceHours(Depart(AddPassenger(Voyager(), Passenger(1, "Ayse"))), 4);
            s.state == EnRoute && ReconcileDeaths(s, NoneDead) == s
  {
    var s := Depart(AddPassenger(Voyager(), Passenger(1, "Ayse")));
    ArrivesOnSchedule(s);
    EnRouteUntilHoursRunOut(s, 4);
    ReconcileWithoutDeaths(AdvanceHours(s, 4), NoneDead);
  }

  /** When the only passenger dies two hours into the flight the ship is destroyed, and further hours change nothing. */
  lemma DestroyedInFlight()
    ensures var s := ReconcileDeaths(AdvanceHours(Depart(AddPassenger(Voyager(), Passenger(1, "Ayse"))), 2), AllDead);
            && s.state == Destroyed && s.remaining == 3 && s.passengers == []
            && AdvanceHours(s, 7) == s
  {
    var s1 := Depart(AddPassenger(Voyager(), Passenger(1, "Ayse")));
    EnRouteUntilHoursRunOut(s1, 2);
    assert Survivors([Passenger(1, "Ayse")], AllDead) == [];
    UnaffectedByHours(ReconcileDeaths(AdvanceHours(s1, 2), AllDead), 7);
  }

  /** A ship whose passenger dies before departure is destroyed without ever flying. */
  lemma DestroyedWhileWaiting()
    ensures var s := ReconcileDeaths(AddPassenger(Voyager(), Passenger(1, "Ayse")), AllDead);
            s.state == Destroyed && s.remaining == 5 && s.passengers == []
  {
    assert Survivors([Passenger(1, "Ayse")], AllDead) == [];
  }

  /** An arrived ship whose passengers then all die stays arrived, with its passenger list emptied. */
  lemma ArrivedNeverDestroyed()
    ensures var s := ReconcileDeaths(AdvanceHours(Depart(AddPassenger(Voyager(), Passenger(1, "Ayse"))), 5), AllDead);
            s.state == Arrived && s.passengers == []
  {
    ArrivesOnSchedule(Depart(AddPassenger(Voyager(), Passenger(1, "Ayse"))));
    assert Survivors([Passenger(1, "Ayse")], AllDead) == [];
  }

  /**
   Departure at hour 40 and a ten-hour flight put the arrival 50 hours after
   the destination's hour 0. The planets are given 20-hour and 30-hour days,
   but the reference calendar counts absolute hours and ignores day lengths,
   so they play no part here: this fixes only the hour count of the plan.
   */
  lemma ArrivalHourIgnoresDayLengths()
    ensures var r := Create<int>("Kartal", Planet("A", 20), Planet("B", 30), 40, 10, AbsoluteHours(), 0, 0);
            r.Success? && r.value.target == 50
  {
  }

  /** Only the passenger with identity 2 is dead. */
  function SecondDead(p: Passenger): bool { p.id == 2 }

  /**
   Two passengers with the same name are still two passengers: when only one
   of them dies, the other stays on board and the ship is not destroyed.
   */
  lemma NamesakesHaveOwnFates()
    ensures var s := ReconcileDeaths(AddPassenger(AddPassenger(Voyager(), Passenger(1, "Ali")), Passenger(2, "Ali")), SecondDead);
            s.state == Waiting && s.passengers == [Passenger(1, "Ali")]
  {
    assert Survivors([Passenger(2, "Ali")], SecondDead) == [];
    assert Survivors([Passenger(1, "Ali"), Passenger(2, "Ali")], SecondDead) == [Passenger(1, "Ali")];
  }
}
