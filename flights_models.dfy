/** The flight catalogue: aircraft with their cabin capacities, flights with
    their schedule and per-cabin prices, and the rules a flight must satisfy. */
module FlightModels {
  import opened Wrappers
  import opened Units

  const DefaultEconomySeats: nat := 150
  const DefaultBusinessSeats: nat := 16
  const DefaultFirstSeats: nat := 8

  datatype Aircraft = Aircraft(aircraftId: nat, model: string, economyClass: nat, businessClass: nat, firstClass: nat)

  /** An aircraft created with only its model given takes the default cabin capacities. */
  function NewAircraft(aircraftId: nat, model: string): (a: Aircraft)
    ensures a.aircraftId == aircraftId && a.model == model
    ensures a.economyClass == 150 && a.businessClass == 16 && a.firstClass == 8
  {
    Aircraft(aircraftId, model, DefaultEconomySeats, DefaultBusinessSeats, DefaultFirstSeats)
  }

  /** The number of seats over all three cabins. */
  function TotalCapacity(a: Aircraft): nat
  {
    a.economyClass + a.businessClass + a.firstClass
  }

  const DefaultEconomyPrice: Money := 30000
  const DefaultBusinessPrice: Money := 80000
  const DefaultFirstClassPrice: Money := 150000

  /** A flight; airports are given by their airport codes, which are their primary keys. */
  datatype Flight = Flight(
    flightNumber: string,
    departure: Instant,
    arrival: Instant,
    economyPrice: Money,
    businessPrice: Money,
    firstClassPrice: Money,
    departureAirport: string,
    arrivalAirport: string,
    aircraft: Aircraft)

  // ---------------------------------------------------------------------------
  // flight_time

  datatype Duration = Duration(hours: int, minutes: int)

  /** The flight time in whole hours and minutes (seconds dropped, floor
      division as Python's `//` and `%` give it), or nothing when either time is unset. */
  function FlightTime(departure: Option<Instant>, arrival: Option<Instant>): (r: Option<Duration>)
    ensures r.Some? <==> departure.Some? && arrival.Some?
    ensures r.Some? ==> 0 <= r.value.minutes < 60
    ensures r.Some? ==>
      var elapsed := r.value.hours * SecondsPerHour + r.value.minutes * SecondsPerMinute;
      elapsed <= arrival.value - departure.value < elapsed + SecondsPerMinute
  {
    if departure.Some? && arrival.Some? then
      var totalSeconds := arrival.value - departure.value;
      var hours := totalSeconds / SecondsPerHour;
      var minutes := (totalSeconds % SecondsPerHour) / SecondsPerMinute;
      Some(Duration(hours, minutes))
    else None
  }

  /** An eight-hour flight takes 8 hours and 0 minutes; 90 minutes and 59 seconds is 1 hour 30 minutes. */
  lemma FlightTimeExamples(t: Instant)
    ensures FlightTime(Some(t), Some(t + 8 * 3600)) == Some(Duration(8, 0))
    ensures FlightTime(Some(t), Some(t + 90 * 60 + 59)) == Some(Duration(1, 30))
  {
    var d := FlightTime(Some(t), Some(t + 8 * 3600)).value;
    assert d.hours * 3600 + d.minutes * 60 <= 8 * 3600 < d.hours * 3600 + d.minutes * 60 + 60;
    var e := FlightTime(Some(t), Some(t + 90 * 60 + 59)).value;
    assert e.hours * 3600 + e.minutes * 60 <= 90 * 60 + 59 < e.hours * 3600 + e.minutes * 60 + 60;
  }

  // ---------------------------------------------------------------------------
  // check_flight

  const TimeOrderMessage := "Departure time must be before arrival time."
  const SameAirportMessage := "Departure and arrival airports cannot be the same."
  const NegativePriceMessage := "Prices must be positive."

  /** A flight is acceptable when it departs before it arrives, joins two different
      airports and has no negative price; otherwise the first failing rule, in
      that order, gives the message. */
  function CheckFlight(f: Flight): (r: Outcome<string>)
    ensures r == Pass <==>
      f.departure < f.arrival && f.departureAirport != f.arrivalAirport &&
      f.economyPrice >= 0 && f.businessPrice >= 0 && f.firstClassPrice >= 0
    ensures f.departure >= f.arrival ==> r == Fail(TimeOrderMessage)
    ensures f.departure < f.arrival && f.departureAirport == f.arrivalAirport ==> r == Fail(SameAirportMessage)
    ensures f.departure < f.arrival && f.departureAirport != f.arrivalAirport && r.Fail? ==> r.error == NegativePriceMessage
  {
    if f.departure >= f.arrival then Fail(TimeOrderMessage)
    else if f.departureAirport == f.arrivalAirport then Fail(SameAirportMessage)
    else
      var prices := [f.economyPrice, f.businessPrice, f.firstClassPrice];
      assert prices[0] == f.economyPrice && prices[1] == f.businessPrice && prices[2] == f.firstClassPrice;
      if AnyNegative(prices) then Fail(NegativePriceMessage) else Pass
  }

  /** Python's `any(p < 0 for p in prices)`. */
  function AnyNegative(prices: seq<Money>): (r: bool)
    ensures r <==> exists i :: 0 <= i < |prices| && prices[i] < 0
  {
    if |prices| == 0 then false
    else
      assert forall i :: 1 <= i < |prices| ==> prices[i] == prices[1..][i - 1];
      prices[0] < 0 || AnyNegative(prices[1..])
  }

  /** A free cabin is allowed: only a price below zero is rejected. */
  lemma CheckFlightAllowsZeroPrice(f: Flight)
    requires f.departure < f.arrival && f.departureAirport != f.arrivalAirport
    requires f.economyPrice == 0 && f.businessPrice == 0 && f.firstClassPrice == 0
    ensures CheckFlight(f) == Pass
  {
  }
}

/** `Flight.available_seats_dynamic`, which reads the booking table (and so
    depends on both apps, as the source's deferred import shows). */
module FlightSeats {
  import opened FlightModels
  import opened BookingModels

  /** The bookings of flight `f` whose seat class is exactly `seatClass`. */
  function ClassBookings(f: Flight, bookings: map<nat, Booking>, seatClass: string): set<nat>
  {
    set id | id in bookings && bookings[id].flight == f.flightNumber && bookings[id].seatClass == seatClass
  }

  /** The bookings of flight `f` that count against its capacity: any status, any passenger count. */
  function CountedBookings(f: Flight, bookings: map<nat, Booking>): set<nat>
  {
    set id | id in bookings && bookings[id].flight == f.flightNumber && IsSeatClassName(bookings[id].seatClass)
  }

  /** Capacity over all cabins minus the Economy, Business and First bookings of the flight. */
  function AvailableSeatsDynamic(f: Flight, bookings: map<nat, Booking>): int
  {
    var bookedEconomy := |ClassBookings(f, bookings, "Economy")|;
    var bookedBusiness := |ClassBookings(f, bookings, "Business")|;
    var bookedFirstClass := |ClassBookings(f, bookings, "First")|;
    TotalCapacity(f.aircraft) - (bookedEconomy + bookedBusiness + bookedFirstClass)
  }

  /** Available seats are the capacity less one per booking of a known class,
      Cancelled ones included, whatever its passenger count; the result is not
      clamped at zero. */
  lemma AvailableSeatsSpec(f: Flight, bookings: map<nat, Booking>)
    ensures AvailableSeatsDynamic(f, bookings) == TotalCapacity(f.aircraft) - |CountedBookings(f, bookings)|
  {
    var e := ClassBookings(f, bookings, "Economy");
    var b := ClassBookings(f, bookings, "Business");
    var c := ClassBookings(f, bookings, "First");
    assert CountedBookings(f, bookings) == e + b + c;
    assert e !! b && (e + b) !! c;
    assert |e + b| == |e| + |b|;
    assert |e + b + c| == |e + b| + |c|;
  }

  /** Recording one more booking of a known class on the flight, whatever its
      status, lowers the count by exactly one. */
  lemma AvailableSeatsAfterBooking(f: Flight, bookings: map<nat, Booking>, id: nat, b: Booking)
    requires id !in bookings
    requires b.flight == f.flightNumber && IsSeatClassName(b.seatClass)
    ensures AvailableSeatsDynamic(f, bookings[id := b]) == AvailableSeatsDynamic(f, bookings) - 1
  {
    AvailableSeatsSpec(f, bookings);
    AvailableSeatsSpec(f, bookings[id := b]);
    assert CountedBookings(f, bookings[id := b]) == CountedBookings(f, bookings) + {id};
  }

  /** A booking for another flight, or with a seat class outside the three, does not count. */
  lemma AvailableSeatsIgnores(f: Flight, bookings: map<nat, Booking>, id: nat, b: Booking)
    requires id !in bookings
    requires b.flight != f.flightNumber || !IsSeatClassName(b.seatClass)
    ensures AvailableSeatsDynamic(f, bookings[id := b]) == AvailableSeatsDynamic(f, bookings)
  {
    AvailableSeatsSpec(f, bookings);
    AvailableSeatsSpec(f, bookings[id := b]);
    assert CountedBookings(f, bookings[id := b]) == CountedBookings(f, bookings);
  }

  /** An aircraft with 100 economy seats and the default 16 business and 8 first
      seats, with no bookings yet, has 124 seats available. */
  lemma AvailableSeatsFreshFlight(f: Flight, bookings: map<nat, Booking>)
    requires f.aircraft == NewAircraft(f.aircraft.aircraftId, f.aircraft.model).(economyClass := 100)
    requires forall id :: id in bookings ==> bookings[id].flight != f.flightNumber
    ensures AvailableSeatsDynamic(f, bookings) == 124
  {
    AvailableSeatsSpec(f, bookings);
    assert CountedBookings(f, bookings) == {};
  }
}
