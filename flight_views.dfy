/** The flight views: the search, a filter and sort over the flight table, and
    the staff-only operations that add and delete flights. */
module FlightViews {
  import opened Wrappers
  import opened Units
  import opened Sorting
  import opened FlightModels
  import opened FlightForms
  import opened Database

  // ---------------------------------------------------------------------------
  // search_flight

  /** A date parameter: absent or empty, not a `%Y-%m-%d` date, or the day it names. */
  datatype DateParam = NoDate | Unparsable | OnDay(day: Date)

  /** The query string of a search. A text parameter is `None` when absent; a
      price is the amount given, `None` when absent or empty. */
  datatype SearchParams = SearchParams(
    origin: Option<string>,
    destination: Option<string>,
    dateFrom: DateParam,
    dateTo: DateParam,
    cabinClass: Option<string>,
    minPrice: Option<Money>,
    maxPrice: Option<Money>)

  /** The results and the count shown with them. */
  datatype SearchResult = SearchResult(flights: seq<Flight>, resultCount: nat)

  /** A text parameter that is present and not empty. */
  predicate Given(p: Option<string>)
  {
    p.Some? && p.value != ""
  }

  /** The cabin searched, `economy` when the parameter is absent. */
  function Cabin(p: SearchParams): string
  {
    if p.cabinClass.Some? then p.cabinClass.value else "economy"
  }

  /** The price of the cabin searched: business for `business`, first class for
      `first`, and economy for anything else. */
  function PriceFor(cabin: string, f: Flight): (price: Money)
    ensures cabin != "business" && cabin != "first" ==> price == f.economyPrice
  {
    if cabin == "business" then f.businessPrice
    else if cabin == "first" then f.firstClassPrice
    else f.economyPrice
  }

  /** The flight leaves from `origin` for `destination` on a day in the range, bounds included. */
  predicate OnRoute(origin: string, destination: string, from: Date, to: Date, f: Flight)
  {
    f.departureAirport == origin && f.arrivalAirport == destination && from <= DayOf(f.departure) <= to
  }

  /** The cabin's price is not below the minimum, if one is given. */
  predicate AboveMin(cabin: string, minPrice: Option<Money>, f: Flight)
  {
    minPrice.Some? ==> PriceFor(cabin, f) >= minPrice.value
  }

  /** The cabin's price is not above the maximum, if one is given. */
  predicate BelowMax(cabin: string, maxPrice: Option<Money>, f: Flight)
  {
    maxPrice.Some? ==> PriceFor(cabin, f) <= maxPrice.value
  }

  /** The cabin's price is within the bounds given, bounds included. */
  predicate InBand(cabin: string, minPrice: Option<Money>, maxPrice: Option<Money>, f: Flight)
  {
    AboveMin(cabin, minPrice, f) && BelowMax(cabin, maxPrice, f)
  }

  /** The search runs only when the route and both dates are given and both dates parse. */
  predicate Searchable(p: SearchParams)
  {
    Given(p.origin) && Given(p.destination) && p.dateFrom != NoDate && p.dateTo != NoDate &&
    p.dateFrom.OnDay? && p.dateTo.OnDay?
  }

  /** A flight the search should return. */
  predicate Matches(p: SearchParams, f: Flight)
  {
    Searchable(p) &&
    OnRoute(p.origin.value, p.destination.value, p.dateFrom.day, p.dateTo.day, f) &&
    InBand(Cabin(p), p.minPrice, p.maxPrice, f)
  }

  /** `search_flight` over the flight table's rows: the route and date filter,
      then the minimum and the maximum price filters when given, then ascending
      departure order; no results unless all four of origin, destination and
      the two dates are given, or when a date does not parse. */
  function SearchFlight(rows: seq<Flight>, p: SearchParams): SearchResult
  {
    if !(Given(p.origin) && Given(p.destination) && p.dateFrom != NoDate && p.dateTo != NoDate) then
      SearchResult([], 0)
    else if p.dateFrom.Unparsable? || p.dateTo.Unparsable? then SearchResult([], 0)
    else
      var cabin := Cabin(p);
      var onRoute := Filter(rows, f => OnRoute(p.origin.value, p.destination.value, p.dateFrom.day, p.dateTo.day, f));
      var aboveMin := if p.minPrice.Some? then Filter(onRoute, f => AboveMin(cabin, p.minPrice, f)) else onRoute;
      var belowMax := if p.maxPrice.Some? then Filter(aboveMin, f => BelowMax(cabin, p.maxPrice, f)) else aboveMin;
      var ordered := SortBy(belowMax, (f: Flight) => f.departure);
      SearchResult(ordered, |ordered|)
  }

  /** The filters in sequence select exactly the matching rows. */
  lemma SearchFilters(rows: seq<Flight>, p: SearchParams)
    requires Searchable(p)
    ensures var cabin := Cabin(p);
      var onRoute := Filter(rows, f => OnRoute(p.origin.value, p.destination.value, p.dateFrom.day, p.dateTo.day, f));
      var aboveMin := if p.minPrice.Some? then Filter(onRoute, f => AboveMin(cabin, p.minPrice, f)) else onRoute;
      var belowMax := if p.maxPrice.Some? then Filter(aboveMin, f => BelowMax(cabin, p.maxPrice, f)) else aboveMin;
      belowMax == Filter(rows, f => Matches(p, f))
  {
    var cabin := Cabin(p);
    var route := f => OnRoute(p.origin.value, p.destination.value, p.dateFrom.day, p.dateTo.day, f);
    var lo := f => AboveMin(cabin, p.minPrice, f);
    var hi := f => BelowMax(cabin, p.maxPrice, f);
    var step1 := f => route(f) && lo(f);
    var step2 := f => step1(f) && hi(f);
    FilterMaybe(rows, route, lo, step1, p.minPrice.Some?);
    FilterMaybe(rows, step1, hi, step2, p.maxPrice.Some?);
    FilterSame(rows, step2, f => Matches(p, f));
  }

  /** A filter applied only when `apply` holds, and otherwise vacuous, after
      another filter, is one filter by both conditions. */
  lemma FilterMaybe(s: seq<Flight>, p: Flight -> bool, q: Flight -> bool, both: Flight -> bool, apply: bool)
    requires forall x :: both(x) == (p(x) && q(x))
    requires !apply ==> forall x :: q(x)
    ensures (if apply then Filter(Filter(s, p), q) else Filter(s, p)) == Filter(s, both)
  {
    if apply {
      FilterFilter(s, p, q, both);
    } else {
      FilterSame(s, p, both);
    }
  }

  /** The search returns, in ascending order of departure, exactly the rows that
      match (with their repetitions), and counts them. */
  lemma SearchFlightSpec(rows: seq<Flight>, p: SearchParams)
    ensures var r := SearchFlight(rows, p);
      && SortedBy(r.flights, (f: Flight) => f.departure)
      && multiset(r.flights) == multiset(Filter(rows, f => Matches(p, f)))
      && r.resultCount == |r.flights|
    ensures forall f :: f in SearchFlight(rows, p).flights <==> f in rows && Matches(p, f)
  {
    var r := SearchFlight(rows, p);
    if Searchable(p) {
      SearchFilters(rows, p);
    } else {
      FilterRejectsAll(rows, f => Matches(p, f));
    }
    forall f
      ensures f in r.flights <==> f in rows && Matches(p, f)
    {
      FilterSpec(rows, x => Matches(p, x), f);
      assert f in r.flights <==> f in multiset(r.flights);
      assert f in Filter(rows, x => Matches(p, x)) <==> f in multiset(Filter(rows, x => Matches(p, x)));
    }
  }

  /** Without all four of origin, destination and the two dates, or with a date
      that does not parse, the search shows nothing. */
  lemma SearchNeedsAllFour(rows: seq<Flight>, p: SearchParams)
    requires !Searchable(p)
    ensures SearchFlight(rows, p) == SearchResult([], 0)
  {
  }

  /** A maximum of 50.00 finds nothing when every economy fare is 100.00. */
  lemma SearchPriceExample(rows: seq<Flight>, p: SearchParams)
    requires forall i :: 0 <= i < |rows| ==> rows[i].economyPrice == 10000
    requires p.cabinClass.None? && p.maxPrice == Some(5000)
    ensures SearchFlight(rows, p).flights == []
  {
    SearchFlightSpec(rows, p);
    forall f | f in rows
      ensures !Matches(p, f)
    {
      assert PriceFor(Cabin(p), f) == f.economyPrice;
    }
    FilterRejectsAll(rows, f => Matches(p, f));
    var r := SearchFlight(rows, p).flights;
    assert |r| == |multiset(r)|;
  }

  // ---------------------------------------------------------------------------
  // add_new_flight and delete_flight

  datatype FlightResponse =
    | RedirectToPassengerDashboard
      /** The add-flight page: a blank form, the submitted form with its errors, or the submitted form again after a save. */
    | BlankFlightForm
    | FlightFormErrors
    | FlightCreated
    | NotFound
    | RedirectToViewFlights
      /** An exception the view does not catch. */
    | ServerError

  /** `add_new_flight` with the submitted form's cleaned data. The form is
      valid when every field cleaned, `clean` accepted it and the flight number
      is not taken; `clean` raising any other error fails the request. */
  function AddNewFlightStep(t: Tables, isStaff: bool, isPost: bool, d: FlightFormData): (FlightResponse, Tables)
  {
    if !isStaff then (RedirectToPassengerDashboard, t)
    else if !isPost then (BlankFlightForm, t)
    else
      match NewFlightFormClean(d)
      case Crashed => (ServerError, t)
      case Rejected(_) => (FlightFormErrors, t)
      case Cleaned(_) =>
        if Complete(d) && d.flightNumber.value !in t.flights then
          (FlightCreated, t.(flights := t.flights[d.flightNumber.value := FlightOf(d)]))
        else (FlightFormErrors, t)
  }

  /** `delete_flight`: only staff, only an existing flight, only on POST; a flight
      that still has bookings cannot be deleted, since bookings restrict it. */
  function DeleteFlightStep(t: Tables, isStaff: bool, isPost: bool, flightId: string): (FlightResponse, Tables)
  {
    if !isStaff then (RedirectToPassengerDashboard, t)
    else if flightId !in t.flights then (NotFound, t)
    else if !isPost then (RedirectToViewFlights, t)
    else if exists id :: id in t.bookings && t.bookings[id].flight == flightId then (ServerError, t)
    else (RedirectToViewFlights, t.(flights := t.flights - {flightId}))
  }

  /** Someone who is not staff is sent to the passenger dashboard and changes no table. */
  lemma NonStaffChangesNothing(t: Tables, isPost: bool, d: FlightFormData, flightId: string)
    ensures AddNewFlightStep(t, false, isPost, d) == (RedirectToPassengerDashboard, t)
    ensures DeleteFlightStep(t, false, isPost, flightId) == (RedirectToPassengerDashboard, t)
  {
  }

  /** A flight is added only when the form is complete and passes `check_flight`
      under a new flight number; it is stored under that number with the
      submitted values, and no other flight changes. */
  lemma AddNewFlightSaves(t: Tables, isStaff: bool, isPost: bool, d: FlightFormData)
    ensures var (r, t') := AddNewFlightStep(t, isStaff, isPost, d);
      && (r == FlightCreated <==>
           isStaff && isPost && Complete(d) && CheckFlight(FlightOf(d)) == Pass && d.flightNumber.value !in t.flights)
      && (r != FlightCreated ==> t' == t)
      && (r == FlightCreated ==>
           && t'.flights.Keys == t.flights.Keys + {d.flightNumber.value}
           && (forall n :: n in t.flights ==> t'.flights[n] == t.flights[n])
           && t'.flights[d.flightNumber.value] == Flight(d.flightNumber.value, d.departure.value, d.arrival.value,
                d.economyPrice.value, d.businessPrice.value, d.firstClassPrice.value,
                d.departureAirport.value, d.arrivalAirport.value, d.aircraft.value)
           && t'.bookings == t.bookings && t'.tickets == t.tickets)
  {
  }

  /** A staff deletion removes the flight, and only it, exactly when it is a POST
      for an existing flight with no bookings; anything else changes nothing. */
  lemma DeleteFlightSpec(t: Tables, isStaff: bool, isPost: bool, flightId: string)
    ensures var (r, t') := DeleteFlightStep(t, isStaff, isPost, flightId);
      && (t' != t <==>
           isStaff && isPost && flightId in t.flights &&
           forall id :: id in t.bookings ==> t.bookings[id].flight != flightId)
      && (t' != t ==> t' == t.(flights := t.flights - {flightId}) && r == RedirectToViewFlights)
  {
    var (r, t') := DeleteFlightStep(t, isStaff, isPost, flightId);
    if isStaff && isPost && flightId in t.flights && forall id :: id in t.bookings ==> t.bookings[id].flight != flightId {
      assert flightId !in t'.flights;
    }
  }

  /** Adding and deleting flights keep the tables consistent. */
  lemma FlightChangesConsistent(t: Tables, isStaff: bool, isPost: bool, d: FlightFormData, flightId: string)
    requires Consistent(t)
    ensures Consistent(AddNewFlightStep(t, isStaff, isPost, d).1)
    ensures Consistent(DeleteFlightStep(t, isStaff, isPost, flightId).1)
  {
  }

  method AddNewFlight(db: Db, isStaff: bool, isPost: bool, d: FlightFormData) returns (response: FlightResponse)
    modifies db
    ensures (response, db.Snapshot()) == AddNewFlightStep(old(db.Snapshot()), isStaff, isPost, d)
  {
    if !isStaff {
      return RedirectToPassengerDashboard;
    }
    if !isPost {
      return BlankFlightForm;
    }
    var cleaned := NewFlightFormClean(d);
    if cleaned.Crashed? {
      return ServerError;
    }
    if cleaned.Cleaned? && Complete(d) && d.flightNumber.value !in db.flights {
      db.flights := db.flights[d.flightNumber.value := FlightOf(d)];
      return FlightCreated;
    }
    return FlightFormErrors;
  }

  method DeleteFlight(db: Db, isStaff: bool, isPost: bool, flightId: string) returns (response: FlightResponse)
    modifies db
    ensures (response, db.Snapshot()) == DeleteFlightStep(old(db.Snapshot()), isStaff, isPost, flightId)
  {
    if !isStaff {
      return RedirectToPassengerDashboard;
    }
    if flightId !in db.flights {
      return NotFound;
    }
    if isPost {
      if exists id :: id in db.bookings && db.bookings[id].flight == flightId {
        return ServerError;
      }
      db.flights := db.flights - {flightId};
    }
    return RedirectToViewFlights;
  }
}
