/** The two flight forms' whole-form checks: `NewFlightForm.clean`, which builds
    a flight from the cleaned values and runs `check_flight` on it, and
    `FlightForm.clean`, which has its own, slightly different, two checks. */
module FlightForms {
  import opened Wrappers
  import opened Units
  import opened FlightModels

  /** The form's cleaned data: a field is `None` when it is not in it (it was
      left empty or did not clean, and then has its own field error). Airports
      are given by their codes. */
  datatype FlightFormData = FlightFormData(
    flightNumber: Option<string>,
    departure: Option<Instant>,
    arrival: Option<Instant>,
    economyPrice: Option<Money>,
    businessPrice: Option<Money>,
    firstClassPrice: Option<Money>,
    departureAirport: Option<string>,
    arrivalAirport: Option<string>,
    aircraft: Option<Aircraft>)

  /** What a `clean` does: return the cleaned data, reject the form with a
      message, or raise an error that is not a validation error. */
  datatype CleanResult = Cleaned(data: FlightFormData) | Rejected(message: string) | Crashed

  /** Every field cleaned. */
  predicate Complete(d: FlightFormData)
  {
    && d.flightNumber.Some? && d.departure.Some? && d.arrival.Some?
    && d.economyPrice.Some? && d.businessPrice.Some? && d.firstClassPrice.Some?
    && d.departureAirport.Some? && d.arrivalAirport.Some? && d.aircraft.Some?
  }

  function OrElse<T>(o: Option<T>, default: T): T
  {
    if o.Some? then o.value else default
  }

  const PlaceholderAircraft := Aircraft(0, "", 0, 0, 0)

  /** `Flight(**cleaned_data)`: a missing price takes the column default; the
      flight number and aircraft, which `check_flight` does not read, take placeholders. */
  function FlightOf(d: FlightFormData): (f: Flight)
    requires d.departure.Some? && d.arrival.Some? && d.departureAirport.Some? && d.arrivalAirport.Some?
    ensures f.departure == d.departure.value && f.arrival == d.arrival.value
    ensures f.departureAirport == d.departureAirport.value && f.arrivalAirport == d.arrivalAirport.value
    ensures f.economyPrice == (if d.economyPrice.Some? then d.economyPrice.value else 30000)
    ensures f.businessPrice == (if d.businessPrice.Some? then d.businessPrice.value else 80000)
    ensures f.firstClassPrice == (if d.firstClassPrice.Some? then d.firstClassPrice.value else 150000)
  {
    Flight(OrElse(d.flightNumber, ""), d.departure.value, d.arrival.value,
      OrElse(d.economyPrice, DefaultEconomyPrice), OrElse(d.businessPrice, DefaultBusinessPrice),
      OrElse(d.firstClassPrice, DefaultFirstClassPrice),
      d.departureAirport.value, d.arrivalAirport.value, OrElse(d.aircraft, PlaceholderAircraft))
  }

  /** `NewFlightForm.clean`. It runs even when fields failed: comparing a missing
      time raises a type error, and reading a missing airport (once the times
      are in order) raises too; otherwise `check_flight`'s message, if any, rejects the form. */
  function NewFlightFormClean(d: FlightFormData): CleanResult
  {
    if d.departure.None? || d.arrival.None? then Crashed
    else if d.departure.value >= d.arrival.value then Rejected(TimeOrderMessage)
    else if d.departureAirport.None? || d.arrivalAirport.None? then Crashed
    else
      match CheckFlight(FlightOf(d))
      case Fail(m) => Rejected(m)
      case Pass => Cleaned(d)
  }

  /** On a complete form, `NewFlightForm.clean` rejects exactly what `check_flight`
      rejects, with the same message, and otherwise returns the data unchanged. */
  lemma NewFlightFormDelegates(d: FlightFormData)
    requires Complete(d)
    ensures var f := Flight(d.flightNumber.value, d.departure.value, d.arrival.value,
        d.economyPrice.value, d.businessPrice.value, d.firstClassPrice.value,
        d.departureAirport.value, d.arrivalAirport.value, d.aircraft.value);
      && (CheckFlight(f) == Pass <==> NewFlightFormClean(d) == Cleaned(d))
      && (forall m :: CheckFlight(f) == Fail(m) <==> NewFlightFormClean(d) == Rejected(m))
  {
  }

  /** `NewFlightForm.clean` never crashes on a complete form, and crashes on an
      incomplete one exactly when a time is missing, or both are there in order
      and an airport is missing. */
  lemma NewFlightFormCrashes(d: FlightFormData)
    ensures NewFlightFormClean(d) == Crashed <==>
      d.departure.None? || d.arrival.None? ||
      (d.departure.value < d.arrival.value && (d.departureAirport.None? || d.arrivalAirport.None?))
    ensures Complete(d) ==> NewFlightFormClean(d) != Crashed
  {
  }

  /** With the times out of order, the form is rejected for that, even when the airports are missing. */
  lemma NewFlightFormTimeFirst(d: FlightFormData)
    requires d.departure.Some? && d.arrival.Some? && d.departure.value >= d.arrival.value
    ensures NewFlightFormClean(d) == Rejected(TimeOrderMessage)
  {
  }

  /** A price left out is checked at its column default, which is never negative. */
  lemma NewFlightFormDefaultPrices(d: FlightFormData)
    requires d.departure.Some? && d.arrival.Some? && d.departure.value < d.arrival.value
    requires d.departureAirport.Some? && d.arrivalAirport.Some? && d.departureAirport != d.arrivalAirport
    requires d.economyPrice.None? && d.businessPrice.None? && d.firstClassPrice.None?
    ensures NewFlightFormClean(d) == Cleaned(d)
  {
  }

  const ArrivalBeforeDepartureMessage := "Arrival time cannot be before departure time."
  const SameAirportsMessage := "Departure and Arrival airports cannot be the same."

  /** `FlightForm.clean`: arrival strictly before departure is rejected, then
      identical airports; each check is skipped when one of its two values is missing. */
  function FlightFormClean(d: FlightFormData): (r: CleanResult)
    ensures r != Crashed
  {
    if d.departure.Some? && d.arrival.Some? && d.arrival.value < d.departure.value then
      Rejected(ArrivalBeforeDepartureMessage)
    else if d.departureAirport.Some? && d.arrivalAirport.Some? && d.departureAirport.value == d.arrivalAirport.value then
      Rejected(SameAirportsMessage)
    else Cleaned(d)
  }

  /** `FlightForm.clean` accepts exactly the data with no arrival before departure and
      no repeated airport among the values present, and returns it unchanged. */
  lemma FlightFormCleanSpec(d: FlightFormData)
    ensures FlightFormClean(d).Cleaned? <==>
      && (d.departure.Some? && d.arrival.Some? ==> d.departure.value <= d.arrival.value)
      && (d.departureAirport.Some? && d.arrivalAirport.Some? ==> d.departureAirport.value != d.arrivalAirport.value)
    ensures FlightFormClean(d).Cleaned? ==> FlightFormClean(d).data == d
    ensures d.departure.Some? && d.arrival.Some? && d.arrival.value < d.departure.value ==>
      FlightFormClean(d) == Rejected(ArrivalBeforeDepartureMessage)
  {
  }

  /** The two forms disagree on a flight that arrives when it departs: `FlightForm`
      lets it through, `NewFlightForm` (through `check_flight`) does not. */
  lemma EqualTimesDisagree(d: FlightFormData)
    requires Complete(d) && d.departure.value == d.arrival.value
    requires d.departureAirport != d.arrivalAirport
    ensures FlightFormClean(d) == Cleaned(d)
    ensures NewFlightFormClean(d) == Rejected(TimeOrderMessage)
  {
  }

  /** A missing time turns off the time check, and a missing airport the airport check. */
  lemma FlightFormSkipsMissing(d: FlightFormData)
    ensures d.departure.None? || d.arrival.None? ==> FlightFormClean(d) != Rejected(ArrivalBeforeDepartureMessage)
    ensures d.departureAirport.None? || d.arrivalAirport.None? ==> FlightFormClean(d) != Rejected(SameAirportsMessage)
  {
  }
}
