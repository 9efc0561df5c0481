# Spaceship lifecycle (`UzayAraci`) in Dafny

A model of the spaceship class `UzayAraci` of a planet-to-planet travel
simulation. A ship waits on its origin planet (`BEKLIYOR`), departs and
travels (`YOLDA`), and either arrives (`VARDI`) or is destroyed (`IMHA`) when
every passenger on board has died. It counts down its flight hours one
simulated hour at a time. It plans its arrival time once, when it is built,
on the destination planet's calendar.

The model is functional: a ship is an immutable `Spacecraft.Ship` value, and
each operation of the class is a pure function from the ship before the call
to the ship after it.

| Java | Dafny |
|---|---|
| `UzayAraci.Durum` (`BEKLIYOR`, `YOLDA`, `VARDI`, `IMHA`) | `Spacecraft.State` (`Waiting`, `EnRoute`, `Arrived`, `Destroyed`) |
| constructor | `Spacecraft.Create`, returning `Failure(InvalidArgument(..))` for a negative duration |
| `cikisAninaGeldiMi` | `Spacecraft.ReadyToDepart` |
| `cikisYap` | `Spacecraft.Depart` |
| `birSaatIlerle` | `Spacecraft.AdvanceHour` |
| `olumKontroluYap` | `Spacecraft.ReconcileDeaths`, filtering with `Passengers.Survivors` |
| `yolcuEkle` | `Spacecraft.AddPassenger` |

The collaborators are abstract:

- A time value (`Zaman`) is a type parameter `T`. The three operations the ship
  calls on it are given as a `Calendar.Calendar<T>` record of functions:
  `hoursUntil` (`kacSaatSonra`), `addHours` (`saatEkle`) and `compare` (`compareTo`).
  Every result about the ship holds for any such calendar. `Calendar.AbsoluteHours`
  is a reference instance in which a time is an absolute hour. It is used to state
  what the arrival plan and the readiness query mean.
- A planet (`Gezegen`) is its name and hours-per-day. Its current time is
  passed to the operations that read it, because it advances outside the ship.
  The constructor reads both planets' current times (`getZaman()`). These are
  the calendars' zero only when the ship is built at program start, and the
  model keeps them as the parameters `originNow` and `destinationNow`.
- A passenger (`Kisi`) is a `Passengers.Passenger`: an identity standing for
  the Java object, and a name. Passengers with the same name stay distinct. `olduMu` is
  the verdict `isDead: Passenger -> bool`, given to each death check. The
  filter `Passengers.Survivors` is generic over the element type.

`Lifecycle` puts the operations behind one event type. It proves what holds
along any sequence of calls a driver can make. `Scenarios` proves facts
about complete journeys on the reference calendar.

Two invariants one might expect of this class do not hold of its code, and the model follows the code:

- "No flight hours left means the ship is not en route" fails for a zero-hour
  flight between `cikisYap` and the next `birSaatIlerle`.
  `Spacecraft.ZeroHourFlightEnRoute` exhibits it. The invariant
  `Spacecraft.Valid` states what does hold: en route with no hours left implies
  a zero-hour flight.
- "A passenger list emptied by deaths never regains members" fails because
  `yolcuEkle` has no state guard: passengers can board a destroyed or arrived
  ship. `Spacecraft.AddPassenger` models this, and the state is unaffected.

## Model

| member | source | states |
|---|---|---|
| Spacecraft.Create | Odev1/src/UzayAraci.java:42-70 | a negative duration is rejected with `InvalidArgument`, and only then; otherwise the ship keeps its name, planets, departure and duration, waits, has all its flight hours left and no passengers, and satisfies the reachable-state invariant; its target is the destination's current time advanced, in destination days, by the origin's hours from its current time until departure plus the flight hours |
| Spacecraft.ArrivalOnSharedClock | Odev1/src/UzayAraci.java:58-69 | on the reference calendar, which counts absolute hours and ignores day lengths, with both planets at hour 0, the planned arrival is the departure hour plus the flight duration |
| Spacecraft.ArrivalBetweenClocks | Odev1/src/UzayAraci.java:61-69 | the arrival is planned through the origin's waiting hours: its distance from the destination's current time is the departure's distance from the origin's current time plus the duration |
| Spacecraft.ReadyToDepart | Odev1/src/UzayAraci.java:73-75 | true only for a waiting ship; for a waiting ship, true exactly when the origin's current time compares at or after the departure time |
| Spacecraft.ReadyOnSharedClock | Odev1/src/UzayAraci.java:73-75 | on absolute hours, the query holds exactly when the ship is waiting and the origin's clock has reached the departure hour |
| Spacecraft.Depart | Odev1/src/UzayAraci.java:78-82 | a waiting ship becomes en route regardless of the clock; in any other state the ship is unchanged; only the state ever changes |
| Spacecraft.DepartIdempotent | Odev1/src/UzayAraci.java:78-82 | departing twice is departing once |
| Spacecraft.AdvanceHour | Odev1/src/UzayAraci.java:85-94 | only an en-route ship changes: one hour is used up if any is left, it is arrived exactly when none is left afterwards and en route otherwise; nothing but the hours and the state change |
| Spacecraft.EnRouteUntilHoursRunOut | Odev1/src/UzayAraci.java:85-94 | for fewer hours than remain, an en-route ship stays en route and loses exactly one hour per hour stepped |
| Spacecraft.ArrivesOnSchedule | Odev1/src/UzayAraci.java:85-94 | an en-route ship arrives, with zero hours left, on exactly the hour its remaining hours run out, or on the first hour of a zero-hour flight |
| Spacecraft.UnaffectedByHours | Odev1/src/UzayAraci.java:85-94 | a ship that is waiting, arrived or destroyed is unchanged by any number of simulated hours |
| Spacecraft.ZeroHourFlightEnRoute | Odev1/src/UzayAraci.java:78-94 | a zero-hour flight is en route with zero hours left after departing, and arrives on the next hour |
| Spacecraft.ReconcileDeaths | Odev1/src/UzayAraci.java:97-102 | exactly the living passengers stay; a ship left empty is destroyed unless it has arrived, and a ship with survivors or an arrived ship keeps its state; nothing else changes |
| Spacecraft.ReconcileIdempotent | Odev1/src/UzayAraci.java:97-102 | a second death check with the same verdicts changes nothing |
| Spacecraft.ReconcileWithoutDeaths | Odev1/src/UzayAraci.java:97-102 | a ship with passengers, none of them dead, comes out of the death check unchanged |
| Spacecraft.ReconcileAfterBoarding | Odev1/src/UzayAraci.java:97-107 | the death check keeps boarding order: a passenger appended last is kept last if alive and dropped if dead |
| Spacecraft.AddPassenger | Odev1/src/UzayAraci.java:105-107 | in any state, the passenger is appended after the existing list, which is kept as it was; state, hours and plan are unchanged |
| Passengers.Survivors | Odev1/src/UzayAraci.java:98 | the result holds exactly the passengers not dead, is no longer than the list, and is a sub-multiset of it |
| Passengers.SurvivorsAppend | Odev1/src/UzayAraci.java:98 | the filter is stable: filtering a concatenation concatenates the filtered halves in order |
| Passengers.SurvivorsOfLiving | Odev1/src/UzayAraci.java:98 | a list with nobody dead on it passes the death filter unchanged |
| Passengers.SurvivorsUnchangedIffAllAlive | Odev1/src/UzayAraci.java:98 | the filter leaves a list unchanged if and only if nobody on it is dead |
| Passengers.SurvivorsEmptyIffAllDead | Odev1/src/UzayAraci.java:98-99 | the filtered list is empty if and only if every passenger on it is dead |
| Passengers.SurvivorsIdempotent | Odev1/src/UzayAraci.java:98 | filtering twice with the same verdicts is filtering once |
| Lifecycle.ApplyStep | Odev1/src/UzayAraci.java:78-107 | any single call follows a lifecycle edge (waiting to en route, en route to arrived, non-terminal to destroyed, or staying put), keeps the plan, never adds hours, and keeps the invariant |
| Lifecycle.RunFollowsLifecycle | Odev1/src/UzayAraci.java:21-27 | after any sequence of calls the state is one the starting state can reach in the lifecycle |
| Lifecycle.RunTerminalClosed | Odev1/src/UzayAraci.java:78-102 | no sequence of calls moves a ship out of the arrived or destroyed state |
| Lifecycle.RunKeepsPlan | Odev1/src/UzayAraci.java:29-35 | name, planets, departure, duration and planned arrival time never change after construction |
| Lifecycle.RunRemainingNonIncreasing | Odev1/src/UzayAraci.java:85-94 | the flight hours left never grow under any sequence of calls |
| Lifecycle.RunKeepsValid | Odev1/src/UzayAraci.java:52-94 | from a valid ship, every sequence of calls keeps the hours left between 0 and the duration, together with the rest of the invariant |
| Lifecycle.BuiltShipStaysValid | Odev1/src/UzayAraci.java:42-107 | a ship as built, after any sequence of calls, keeps its planned arrival time and has between 0 and its duration of flight hours left |
| Scenarios.NormalCompletion | Odev1/src/UzayAraci.java:78-102 | departure at hour 10 with a five-hour flight and a living passenger: en route with the passenger after four hours, arrived at target hour 15 after five |
| Scenarios.DestroyedInFlight | Odev1/src/UzayAraci.java:85-102 | the sole passenger dying two hours into the flight destroys the ship with three hours left, and later hours change nothing |
| Scenarios.DestroyedWhileWaiting | Odev1/src/UzayAraci.java:97-102 | the sole passenger dying before departure destroys the waiting ship directly |
| Scenarios.ArrivedNeverDestroyed | Odev1/src/UzayAraci.java:97-102 | an arrived ship whose passengers all die is emptied but stays arrived |
| Scenarios.ArrivalHourIgnoresDayLengths | Odev1/src/UzayAraci.java:61-69 | departure at hour 40 and a ten-hour flight plan the arrival 50 hours after the destination's zero; the reference calendar ignores the planets' 20-hour and 30-hour days, so they play no part |
| Scenarios.NamesakesHaveOwnFates | Odev1/src/UzayAraci.java:97-102 | of two passengers with the same name, only the dead one is removed, and the ship keeps its state |

## Left out

- Null checks (`Objects.requireNonNull` in the constructor and in `yolcuEkle`): Dafny values are never null, so there is nothing to reject.
- Calendar arithmetic inside `Zaman` and `Gezegen` (days and hours, hours-per-day conversions, `compareTo`): those classes are not part of this model. Their operations are parameters, and only the absolute-hour reference calendar is concrete. A scenario's arrival is therefore stated in absolute hours, not as a day and an hour of the destination's calendar.
- Passenger lifetime (`Kisi.olduMu`): its internals are not part of this model. Each death check takes the verdicts as a function.
- Spacecraft.Create: the Java `int` duration and the `long` sum of waiting and flight hours are unbounded integers here. Overflow is not modelled, since no realistic input reaches those bounds and the hour counter is only decremented while positive.
- Getters, the aliasing of the mutable list returned by `getYolcular`, and `toString`: plumbing with no behaviour of its own.
- The simulation driver that calls the operations each hour, and all output: not part of the class. `Lifecycle.Run` stands for any order of calls such a driver makes.
