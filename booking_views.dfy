/** The booking flow: choosing seats on a flight, one passenger form per seat,
    and creating the booking with its tickets. */
module BookingViews {
  import opened Wrappers
  import opened Units
  import opened Text
  import opened FlightModels
  import opened FlightSeats
  import opened BookingModels
  import opened TicketForms
  import opened Database

  /** What a booking view answers. */
  datatype Response =
    | RedirectToDashboard
    | NotFound
    | ServerError
      /** The seat map of `flight`. */
    | SeatMap(flight: Flight, totalPassengers: int, takenSeats: seq<string>, rows: seq<int>)
      /** One blank passenger form per seat. */
    | PassengerForms(flight: Flight, seats: seq<string>, seatsStr: string)
      /** The bound forms again, with their errors, when one of them is invalid. */
    | CorrectErrors(flight: Flight, forms: seq<BoundForm>, seatsStr: string)
    | RedirectToPayment(bookingId: nat)

  // ---------------------------------------------------------------------------
  // Taken seats

  /** Ticket `k` holds its seat on flight `flightNumber`: its booking is for that flight and not Cancelled. */
  predicate Holds(bookings: map<nat, Booking>, k: Ticket, flightNumber: string)
  {
    k.booking in bookings && bookings[k.booking].flight == flightNumber && bookings[k.booking].status != Cancelled
  }

  /** The seat numbers of the tickets, in table order, that hold a seat on the flight. */
  function HeldSeats(tickets: seq<Ticket>, bookings: map<nat, Booking>, flightNumber: string): (seats: seq<string>)
    ensures |seats| <= |tickets|
  {
    if |tickets| == 0 then []
    else
      var last := tickets[|tickets| - 1];
      HeldSeats(tickets[..|tickets| - 1], bookings, flightNumber)
      + (if Holds(bookings, last, flightNumber) then [last.seatNumber] else [])
  }

  /** The taken seats shown on the seat map of flight `flightNumber`. */
  function TakenSeats(t: Tables, flightNumber: string): seq<string>
  {
    HeldSeats(t.tickets, t.bookings, flightNumber)
  }

  lemma {:induction false} HeldSeatsSpec(tickets: seq<Ticket>, bookings: map<nat, Booking>, flightNumber: string, seat: string)
    ensures seat in HeldSeats(tickets, bookings, flightNumber) <==>
      exists i :: 0 <= i < |tickets| && tickets[i].seatNumber == seat && Holds(bookings, tickets[i], flightNumber)
    decreases |tickets|
  {
    if |tickets| > 0 {
      var n := |tickets| - 1;
      var init := tickets[..n];
      HeldSeatsSpec(init, bookings, flightNumber, seat);
      assert forall i :: 0 <= i < n ==> init[i] == tickets[i];
    }
  }

  /** A seat is taken on a flight exactly when some ticket for it belongs to a
      booking of that flight that is not Cancelled. */
  lemma TakenSeatsSpec(t: Tables, flightNumber: string, seat: string)
    ensures seat in TakenSeats(t, flightNumber) <==>
      exists i :: 0 <= i < |t.tickets| && t.tickets[i].seatNumber == seat &&
        t.tickets[i].booking in t.bookings &&
        t.bookings[t.tickets[i].booking].flight == flightNumber &&
        t.bookings[t.tickets[i].booking].status != Cancelled
  {
    HeldSeatsSpec(t.tickets, t.bookings, flightNumber, seat);
  }

  lemma {:induction false} HeldSeatsAppend(a: seq<Ticket>, b: seq<Ticket>, bookings: map<nat, Booking>, flightNumber: string)
    ensures HeldSeats(a + b, bookings, flightNumber) == HeldSeats(a, bookings, flightNumber) + HeldSeats(b, bookings, flightNumber)
    decreases |b|
  {
    if |b| == 0 {
      assert a + b == a;
    } else {
      var n := |b| - 1;
      HeldSeatsAppend(a, b[..n], bookings, flightNumber);
      assert (a + b)[..|a + b| - 1] == a + b[..n];
      assert (a + b)[|a + b| - 1] == b[n];
    }
  }

  /** Only whether each ticket holds its seat matters, not the rest of the booking table. */
  lemma {:induction false} HeldSeatsAgree(tickets: seq<Ticket>, b1: map<nat, Booking>, b2: map<nat, Booking>, flightNumber: string)
    requires forall i :: 0 <= i < |tickets| ==> (Holds(b1, tickets[i], flightNumber) <==> Holds(b2, tickets[i], flightNumber))
    ensures HeldSeats(tickets, b1, flightNumber) == HeldSeats(tickets, b2, flightNumber)
    decreases |tickets|
  {
    if |tickets| > 0 {
      var n := |tickets| - 1;
      assert forall i :: 0 <= i < n ==> tickets[..n][i] == tickets[i];
      HeldSeatsAgree(tickets[..n], b1, b2, flightNumber);
    }
  }

  /** When every ticket holds its seat, the held seats are all their seat numbers, in order. */
  lemma {:induction false} HeldSeatsAll(tickets: seq<Ticket>, bookings: map<nat, Booking>, flightNumber: string)
    requires forall i :: 0 <= i < |tickets| ==> Holds(bookings, tickets[i], flightNumber)
    ensures |HeldSeats(tickets, bookings, flightNumber)| == |tickets|
    ensures forall i :: 0 <= i < |tickets| ==> HeldSeats(tickets, bookings, flightNumber)[i] == tickets[i].seatNumber
    decreases |tickets|
  {
    if |tickets| > 0 {
      var n := |tickets| - 1;
      assert forall i :: 0 <= i < n ==> tickets[..n][i] == tickets[i];
      HeldSeatsAll(tickets[..n], bookings, flightNumber);
    }
  }

  /** When no ticket holds a seat on the flight, none is taken. */
  lemma {:induction false} HeldSeatsNone(tickets: seq<Ticket>, bookings: map<nat, Booking>, flightNumber: string)
    requires forall i :: 0 <= i < |tickets| ==> !Holds(bookings, tickets[i], flightNumber)
    ensures HeldSeats(tickets, bookings, flightNumber) == []
    decreases |tickets|
  {
    if |tickets| > 0 {
      var n := |tickets| - 1;
      assert forall i :: 0 <= i < n ==> tickets[..n][i] == tickets[i];
      HeldSeatsNone(tickets[..n], bookings, flightNumber);
    }
  }

  // ---------------------------------------------------------------------------
  // seat_selection

  const SeatRowCount := 20

  /** The seat map's rows, numbered from 1 to 20. */
  function SeatRows(): (rows: seq<int>)
    ensures |rows| == SeatRowCount
    ensures forall i :: 0 <= i < |rows| ==> rows[i] == i + 1
  {
    seq(SeatRowCount, i => i + 1)
  }

  /** A passenger count from the query string, or its default when the parameter is absent. */
  function CountParam(raw: Option<string>, default: int): Option<int>
  {
    if raw.None? then Some(default) else ParseInt(raw.value)
  }

  const DefaultAdults := 1
  const DefaultChildren := 0
  const FallbackAdults := 10
  const FallbackChildren := 2

  /** Adults plus children; if either parameter is not an integer, 10 adults and 2 children. */
  function TotalPassengers(adults: Option<string>, children: Option<string>): int
  {
    var a := CountParam(adults, DefaultAdults);
    var c := CountParam(children, DefaultChildren);
    if a.Some? && c.Some? then a.value + c.value else FallbackAdults + FallbackChildren
  }

  /** Without parameters the party is one adult; numbers written out are added. */
  lemma TotalPassengersOfNumbers(adults: nat, children: nat)
    requires |ShowNat(adults)| <= MaxStrDigits && |ShowNat(children)| <= MaxStrDigits
    ensures TotalPassengers(None, None) == 1
    ensures TotalPassengers(Some(ShowNat(adults)), None) == adults
    ensures TotalPassengers(Some(ShowNat(adults)), Some(ShowNat(children))) == adults + children
  {
    CountParamShowNat(adults, DefaultAdults);
    CountParamShowNat(children, DefaultChildren);
  }

  /** A parameter holding a number written out counts as that number. */
  lemma CountParamShowNat(n: nat, default: int)
    requires |ShowNat(n)| <= MaxStrDigits
    ensures CountParam(Some(ShowNat(n)), default) == Some(n)
  {
    ParseShowNat(n);
  }

  /** Underscores between digits do not trigger the fallback: `?adults=1_0&children=0`
      is a party of ten, as are any two digit runs joined by an underscore. */
  lemma TotalPassengersGrouped(x: string, y: string, children: nat)
    requires |x| > 0 && AllDigits(x) && |y| > 0 && AllDigits(y)
    requires |x| + |y| <= MaxStrDigits && |ShowNat(children)| <= MaxStrDigits
    ensures AllDigits(x + y)
    ensures TotalPassengers(Some(x + "_" + y), Some(ShowNat(children))) == DigitsValue(x + y) + children
  {
    ParseIntGroups(x, y);
    CountParamShowNat(children, DefaultChildren);
  }

  /** Whitespace in front of a number, such as a file separator, does not trigger
      the fallback: `?adults=%1C5&children=0` is a party of five. */
  lemma TotalPassengersLeadingSpace(w: string, adults: nat, children: nat)
    requires AllSpace(w) && |ShowNat(adults)| <= MaxStrDigits && |ShowNat(children)| <= MaxStrDigits
    ensures TotalPassengers(Some(w + ShowNat(adults)), Some(ShowNat(children))) == adults + children
  {
    ParseIntLeadingSpace(w, adults);
    CountParamShowNat(children, DefaultChildren);
  }

  /** An adults value of more digits than `int()` reads gives 12, whatever the children. */
  lemma TotalPassengersTooLong(adults: string, children: Option<string>)
    requires AllDigits(adults) && |adults| > MaxStrDigits
    ensures TotalPassengers(Some(adults), children) == 12
  {
    ParseIntTooLong(adults);
  }

  /** A parameter holding anything but digits, signs, underscores and surrounding whitespace gives 12. */
  lemma TotalPassengersFallback(adults: Option<string>, children: Option<string>, k: nat)
    requires
      || (adults.Some? && k < |adults.value| && !IsDigit(adults.value[k]) && !IsSpace(adults.value[k])
          && adults.value[k] != '-' && adults.value[k] != '+' && adults.value[k] != '_')
      || (children.Some? && k < |children.value| && !IsDigit(children.value[k]) && !IsSpace(children.value[k])
          && children.value[k] != '-' && children.value[k] != '+' && children.value[k] != '_')
    ensures TotalPassengers(adults, children) == 12
  {
    if adults.Some? && k < |adults.value| && !IsDigit(adults.value[k]) && !IsSpace(adults.value[k])
      && adults.value[k] != '-' && adults.value[k] != '+' && adults.value[k] != '_'
    {
      ParseIntRejects(adults.value, k);
    } else {
      ParseIntRejects(children.value, k);
    }
  }

  /** `seat_selection`: a missing flight id sends the user back to the
      dashboard; otherwise the seat map of that flight, with the seats taken on it. */
  function SeatSelection(t: Tables, flightId: Option<string>, adults: Option<string>, children: Option<string>): (r: Response)
  {
    if flightId.None? || flightId.value == "" then RedirectToDashboard
    else if flightId.value !in t.flights then NotFound
    else SeatMap(t.flights[flightId.value], TotalPassengers(adults, children), TakenSeats(t, flightId.value), SeatRows())
  }

  /** The seat map lists exactly the taken seats of the flight asked for. */
  lemma SeatSelectionShowsTaken(t: Tables, flightId: Option<string>, adults: Option<string>, children: Option<string>, seat: string)
    requires SeatSelection(t, flightId, adults, children).SeatMap?
    ensures flightId.Some? && flightId.value in t.flights
    ensures var r := SeatSelection(t, flightId, adults, children);
      r.flight == t.flights[flightId.value] && |r.rows| == 20 &&
      (seat in r.takenSeats <==>
        exists i :: 0 <= i < |t.tickets| && t.tickets[i].seatNumber == seat &&
          t.tickets[i].booking in t.bookings &&
          t.bookings[t.tickets[i].booking].flight == flightId.value &&
          t.bookings[t.tickets[i].booking].status != Cancelled)
  {
    TakenSeatsSpec(t, flightId.value, seat);
  }

  // ---------------------------------------------------------------------------
  // passenger_details

  /** `passenger_details`: on a POST, one blank form per comma-separated seat of the
      flight's selection. A missing flight is not found; a missing seat list fails. */
  function PassengerDetails(t: Tables, isPost: bool, flightId: Option<string>, seatsStr: Option<string>): (r: Response)
  {
    if !isPost then RedirectToDashboard
    else if flightId.None? || flightId.value !in t.flights then NotFound
    else if seatsStr.None? then ServerError
    else PassengerForms(t.flights[flightId.value], Split(seatsStr.value, ','), seatsStr.value)
  }

  /** The forms are the comma-separated pieces of the selection in order: there is at
      least one, none holds a comma, and joined back with commas they give the selection. */
  lemma PassengerDetailsForms(t: Tables, isPost: bool, flightId: Option<string>, seatsStr: Option<string>)
    ensures var r := PassengerDetails(t, isPost, flightId, seatsStr);
      r.PassengerForms? <==> isPost && flightId.Some? && flightId.value in t.flights && seatsStr.Some?
    ensures var r := PassengerDetails(t, isPost, flightId, seatsStr);
      r.PassengerForms? ==>
        |r.seats| >= 1 && Join(r.seats, ',') == seatsStr.value &&
        forall k :: 0 <= k < |r.seats| ==> ',' !in r.seats[k]
  {
    if isPost && flightId.Some? && flightId.value in t.flights && seatsStr.Some? {
      JoinSplit(seatsStr.value, ',');
    }
  }

  // ---------------------------------------------------------------------------
  // create_booking

  /** A POST to `create_booking`: the flight and the seat selection, the
      submitted form data of each seat (by its form prefix, the seat), and the user. */
  datatype BookingRequest = BookingRequest(
    isPost: bool,
    flightId: Option<string>,
    seatsStr: Option<string>,
    post: map<string, TicketInput>,
    user: UserId)

  /** What was submitted under the prefix of `seat`; a seat with nothing submitted gets empty fields. */
  function InputFor(post: map<string, TicketInput>, seat: string): TicketInput
  {
    if seat in post then post[seat] else NoInput
  }

  /** The form of every seat, in order, bound to what was submitted for it. */
  function BindForms(seats: seq<string>, post: map<string, TicketInput>, today: Date): (forms: seq<BoundForm>)
    ensures |forms| == |seats|
    ensures forall k :: 0 <= k < |seats| ==> forms[k] == BindTicketForm(seats[k], InputFor(post, seats[k]), today)
  {
    seq(|seats|, k requires 0 <= k < |seats| => BindTicketForm(seats[k], InputFor(post, seats[k]), today))
  }

  predicate AllValid(forms: seq<BoundForm>)
  {
    forall k :: 0 <= k < |forms| ==> IsValid(forms[k])
  }

  /** The seats the forms are for, in order. */
  function FormSeats(forms: seq<BoundForm>): (seats: seq<string>)
    ensures |seats| == |forms| && forall k :: 0 <= k < |forms| ==> seats[k] == forms[k].seat
  {
    seq(|forms|, k requires 0 <= k < |forms| => forms[k].seat)
  }

  /** The ticket a valid form saves: its cleaned values, the seat, the booking. */
  function TicketFor(form: BoundForm, bookingId: nat, ticketId: nat): Ticket
    requires IsValid(form)
  {
    var d := form.cleaned.value;
    Ticket(ticketId, form.seat, d.passengerName, d.passport, d.passengerDob, d.nationality, bookingId)
  }

  /** The tickets of valid forms, in order, with consecutive ids from `firstId`. */
  function NewTickets(forms: seq<BoundForm>, bookingId: nat, firstId: nat): (tickets: seq<Ticket>)
    requires AllValid(forms)
    ensures |tickets| == |forms|
    ensures forall k :: 0 <= k < |forms| ==> tickets[k] == TicketFor(forms[k], bookingId, firstId + k)
  {
    seq(|forms|, k requires 0 <= k < |forms| => TicketFor(forms[k], bookingId, firstId + k))
  }

  /** The booking the view creates: Pending, one passenger per seat, Economy whatever was chosen. */
  function NewBookingFor(id: nat, now: Instant, profile: nat, flight: Flight, seatCount: nat): Booking
  {
    Booking(id, now, Pending, seatCount, SeatClassName(Economy), profile, flight.flightNumber)
  }

  /** The tables once the booking of `forms` on `flight` for `profile` is stored:
      the booking under the next id, then a ticket per form under the next ticket ids. */
  function Book(t: Tables, flight: Flight, profile: nat, forms: seq<BoundForm>, now: Instant): Tables
    requires AllValid(forms)
  {
    var id := t.nextBookingId;
    t.(bookings := t.bookings[id := NewBookingFor(id, now, profile, flight, |forms|)],
       nextBookingId := id + 1,
       tickets := t.tickets + NewTickets(forms, id, t.nextTicketId),
       nextTicketId := t.nextTicketId + |forms|)
  }

  /** `create_booking`: its answer and the tables after it. */
  function CreateBookingStep(t: Tables, req: BookingRequest, now: Instant, today: Date): (Response, Tables)
  {
    if !req.isPost then (RedirectToDashboard, t)
    else if req.seatsStr.None? then (ServerError, t)
    else if req.flightId.None? || req.flightId.value !in t.flights then (NotFound, t)
    else
      var seats := Split(req.seatsStr.value, ',');
      var flight := t.flights[req.flightId.value];
      var forms := BindForms(seats, req.post, today);
      if !AllValid(forms) then (CorrectErrors(flight, forms, req.seatsStr.value), t)
      else if req.user !in t.profiles then (ServerError, t)
      else (RedirectToPayment(t.nextBookingId), Book(t, flight, t.profiles[req.user], forms, now))
  }

  /** The request has everything a booking needs: it is a POST with a seat
      selection for an existing flight, every seat's form is valid and the user has a passenger profile. */
  predicate Bookable(t: Tables, req: BookingRequest, today: Date)
  {
    && req.isPost && req.seatsStr.Some? && req.flightId.Some? && req.flightId.value in t.flights
    && AllValid(BindForms(Split(req.seatsStr.value, ','), req.post, today))
    && req.user in t.profiles
  }

  /** All or nothing: the booking is made exactly when the request is bookable,
      and any other answer leaves every table as it was. */
  lemma CreateBookingAllOrNothing(t: Tables, req: BookingRequest, now: Instant, today: Date)
    ensures CreateBookingStep(t, req, now, today).0.RedirectToPayment? <==> Bookable(t, req, today)
    ensures !CreateBookingStep(t, req, now, today).0.RedirectToPayment? ==> CreateBookingStep(t, req, now, today).1 == t
  {
  }

  /** One invalid seat form sends every seat's form back, in order, each bound to
      what was submitted for that seat, and nothing is stored. */
  lemma CreateBookingInvalidForm(t: Tables, req: BookingRequest, now: Instant, today: Date, k: nat)
    requires req.isPost && req.seatsStr.Some? && req.flightId.Some? && req.flightId.value in t.flights
    requires var seats := Split(req.seatsStr.value, ',');
      k < |seats| && FormErrors(InputFor(req.post, seats[k]), today) != map[]
    ensures var (r, t') := CreateBookingStep(t, req, now, today);
      var seats := Split(req.seatsStr.value, ',');
      t' == t && r.CorrectErrors? && |r.forms| == |seats| &&
      forall j :: 0 <= j < |seats| ==>
        r.forms[j].seat == seats[j] && r.forms[j].input == InputFor(req.post, seats[j])
  {
    var seats := Split(req.seatsStr.value, ',');
    var forms := BindForms(seats, req.post, today);
    assert !IsValid(forms[k]);
  }

  /** Storing a booking adds exactly one booking, under an id not used before:
      Pending, Economy, for the flight and the profile, dated now, with one
      passenger per form; the other bookings and tables other than the
      tickets are untouched. */
  lemma BookAddsBooking(t: Tables, flight: Flight, profile: nat, forms: seq<BoundForm>, now: Instant)
    requires Consistent(t) && AllValid(forms)
    ensures var t' := Book(t, flight, profile, forms, now);
      var id := t.nextBookingId;
      && id !in t.bookings && t'.bookings.Keys == t.bookings.Keys + {id}
      && (forall other :: other in t.bookings ==> t'.bookings[other] == t.bookings[other])
      && t'.bookings[id].status == Pending && t'.bookings[id].seatClass == "Economy"
      && t'.bookings[id].numberOfPassengers == |forms| && t'.bookings[id].flight == flight.flightNumber
      && t'.bookings[id].passenger == profile && t'.bookings[id].bookingDate == now
      && t'.flights == t.flights && t'.payments == t.payments && t'.profiles == t.profiles
  {
  }

  /** Storing a booking appends one ticket per form, in order, each for the
      form's seat, the new booking, and the form's cleaned values. */
  lemma BookAddsTickets(t: Tables, flight: Flight, profile: nat, forms: seq<BoundForm>, now: Instant)
    requires AllValid(forms)
    ensures var t' := Book(t, flight, profile, forms, now);
      && |t'.tickets| == |t.tickets| + |forms| && t'.tickets[..|t.tickets|] == t.tickets
      && forall k :: 0 <= k < |forms| ==>
           var ticket := t'.tickets[|t.tickets| + k];
           var d := forms[k].cleaned.value;
           && ticket.seatNumber == forms[k].seat && ticket.booking == t.nextBookingId
           && ticket.ticketId == t.nextTicketId + k
           && ticket.passengerName == d.passengerName && ticket.passport == d.passport
           && ticket.nationality == d.nationality && ticket.passengerDob == d.passengerDob
  {
    var t' := Book(t, flight, profile, forms, now);
    var nt := NewTickets(forms, t.nextBookingId, t.nextTicketId);
    assert t'.tickets == t.tickets + nt;
    forall k | 0 <= k < |forms|
      ensures t'.tickets[|t.tickets| + k] == nt[k]
    {
    }
  }

  /** The tickets of one booking hold the forms' seats on its flight, and no seat on any other. */
  lemma NewTicketsHeld(forms: seq<BoundForm>, bookings: map<nat, Booking>, id: nat, firstId: nat, flightNumber: string)
    requires AllValid(forms) && id in bookings && bookings[id].status != Cancelled
    ensures HeldSeats(NewTickets(forms, id, firstId), bookings, flightNumber) ==
      if bookings[id].flight == flightNumber then FormSeats(forms) else []
  {
    var nt := NewTickets(forms, id, firstId);
    if bookings[id].flight == flightNumber {
      HeldSeatsAll(nt, bookings, flightNumber);
    } else {
      HeldSeatsNone(nt, bookings, flightNumber);
    }
  }

  /** The forms' seats become taken on the booked flight, after the seats
      already taken there, and no other flight's taken seats change. */
  lemma BookClaimsSeats(t: Tables, flight: Flight, profile: nat, forms: seq<BoundForm>, now: Instant, flightNumber: string)
    requires Consistent(t) && AllValid(forms)
    ensures TakenSeats(Book(t, flight, profile, forms, now), flightNumber) ==
      if flightNumber == flight.flightNumber then TakenSeats(t, flightNumber) + FormSeats(forms)
      else TakenSeats(t, flightNumber)
  {
    var id := t.nextBookingId;
    var t' := Book(t, flight, profile, forms, now);
    var nt := NewTickets(forms, id, t.nextTicketId);
    assert t'.tickets == t.tickets + nt;
    assert id !in t.bookings;
    forall i | 0 <= i < |t.tickets|
      ensures Holds(t.bookings, t.tickets[i], flightNumber) <==> Holds(t'.bookings, t.tickets[i], flightNumber)
    {
      assert t.tickets[i].booking in t.bookings;
    }
    HeldSeatsAgree(t.tickets, t.bookings, t'.bookings, flightNumber);
    HeldSeatsAppend(t.tickets, nt, t'.bookings, flightNumber);
    NewTicketsHeld(forms, t'.bookings, id, t.nextTicketId, flightNumber);
  }

  /** Storing a booking counts one seat against the flight's availability, however many seats it holds. */
  lemma BookAvailableSeats(t: Tables, flight: Flight, profile: nat, forms: seq<BoundForm>, now: Instant)
    requires Consistent(t) && AllValid(forms)
    ensures AvailableSeatsDynamic(flight, Book(t, flight, profile, forms, now).bookings) ==
      AvailableSeatsDynamic(flight, t.bookings) - 1
  {
    var id := t.nextBookingId;
    AvailableSeatsAfterBooking(flight, t.bookings, id, NewBookingFor(id, now, profile, flight, |forms|));
  }

  /** Storing a booking of a flight in the table keeps the tables consistent. */
  lemma BookConsistent(t: Tables, flight: Flight, profile: nat, forms: seq<BoundForm>, now: Instant)
    requires Consistent(t) && AllValid(forms) && flight.flightNumber in t.flights
    ensures Consistent(Book(t, flight, profile, forms, now))
  {
    var id := t.nextBookingId;
    var t' := Book(t, flight, profile, forms, now);
    var nt := NewTickets(forms, id, t.nextTicketId);
    assert t'.tickets == t.tickets + nt;
    forall i | 0 <= i < |t'.tickets|
      ensures t'.tickets[i].booking in t'.bookings && t'.tickets[i].ticketId < t'.nextTicketId
    {
      if i >= |t.tickets| {
        assert t'.tickets[i] == nt[i - |t.tickets|];
      }
    }
  }

  /** A bookable request is answered with the new booking's payment page and stores
      the booking of the seats' forms for the user's profile. */
  lemma CreateBookingBooks(t: Tables, req: BookingRequest, now: Instant, today: Date)
    requires Bookable(t, req, today)
    ensures var seats := Split(req.seatsStr.value, ',');
      var forms := BindForms(seats, req.post, today);
      && FormSeats(forms) == seats
      && CreateBookingStep(t, req, now, today) ==
        (RedirectToPayment(t.nextBookingId), Book(t, t.flights[req.flightId.value], t.profiles[req.user], forms, now))
  {
    var seats := Split(req.seatsStr.value, ',');
    assert FormSeats(BindForms(seats, req.post, today)) == seats;
  }

  /** The tickets of a successful request hold, seat by seat, the stripped values submitted for that seat. */
  lemma CreateBookingTicketValues(t: Tables, req: BookingRequest, now: Instant, today: Date)
    requires Bookable(t, req, today)
    ensures var t' := CreateBookingStep(t, req, now, today).1;
      var seats := Split(req.seatsStr.value, ',');
      && |t'.tickets| == |t.tickets| + |seats| && t'.tickets[..|t.tickets|] == t.tickets
      && forall k :: 0 <= k < |seats| ==>
           var ticket := t'.tickets[|t.tickets| + k];
           var input := InputFor(req.post, seats[k]);
           && ticket.seatNumber == seats[k] && ticket.booking == t.nextBookingId
           && input.passengerName.Some? && ticket.passengerName == Strip(input.passengerName.value)
           && input.passport.Some? && ticket.passport == Strip(input.passport.value)
           && input.nationality.Some? && ticket.nationality == Strip(input.nationality.value)
           && input.passengerDob.DateOn? && ticket.passengerDob == input.passengerDob.day
  {
    var seats := Split(req.seatsStr.value, ',');
    var forms := BindForms(seats, req.post, today);
    CreateBookingBooks(t, req, now, today);
    BookAddsTickets(t, t.flights[req.flightId.value], t.profiles[req.user], forms, now);
  }

  /** Nothing checks the selection against the seats already taken: a request for
      a taken seat still books it, and the seat is then listed as taken twice. */
  lemma CreateBookingAllowsTakenSeat(t: Tables, req: BookingRequest, now: Instant, today: Date, k: nat)
    requires Consistent(t) && Bookable(t, req, today)
    requires k < |Split(req.seatsStr.value, ',')|
    requires Split(req.seatsStr.value, ',')[k] in TakenSeats(t, req.flightId.value)
    ensures var (r, t') := CreateBookingStep(t, req, now, today);
      var seat := Split(req.seatsStr.value, ',')[k];
      r.RedirectToPayment? && multiset(TakenSeats(t', req.flightId.value))[seat] >= 2
  {
    var seats := Split(req.seatsStr.value, ',');
    var fn := req.flightId.value;
    var flight := t.flights[fn];
    var forms := BindForms(seats, req.post, today);
    CreateBookingBooks(t, req, now, today);
    BookClaimsSeats(t, flight, t.profiles[req.user], forms, now, fn);
    var t' := Book(t, flight, t.profiles[req.user], forms, now);
    assert TakenSeats(t', fn) == TakenSeats(t, fn) + seats;
    InBoth(TakenSeats(t, fn), seats, seats[k]);
  }

  lemma InBoth(a: seq<string>, b: seq<string>, x: string)
    requires x in a && x in b
    ensures multiset(a + b)[x] >= 2
  {
    assert multiset(a + b) == multiset(a) + multiset(b);
  }

  /** Creating a booking keeps the tables consistent. */
  lemma CreateBookingConsistent(t: Tables, req: BookingRequest, now: Instant, today: Date)
    requires Consistent(t)
    ensures Consistent(CreateBookingStep(t, req, now, today).1)
  {
    if Bookable(t, req, today) {
      var forms := BindForms(Split(req.seatsStr.value, ','), req.post, today);
      CreateBookingBooks(t, req, now, today);
      BookConsistent(t, t.flights[req.flightId.value], t.profiles[req.user], forms, now);
    }
  }

  lemma CreateBookingRejects(t: Tables, req: BookingRequest, now: Instant, today: Date)
    requires req.isPost && req.seatsStr.Some? && req.flightId.Some? && req.flightId.value in t.flights
    requires !AllValid(BindForms(Split(req.seatsStr.value, ','), req.post, today))
    ensures CreateBookingStep(t, req, now, today) ==
      (CorrectErrors(t.flights[req.flightId.value], BindForms(Split(req.seatsStr.value, ','), req.post, today), req.seatsStr.value), t)
  {
  }

  lemma CreateBookingNoProfile(t: Tables, req: BookingRequest, now: Instant, today: Date)
    requires req.isPost && req.seatsStr.Some? && req.flightId.Some? && req.flightId.value in t.flights
    requires AllValid(BindForms(Split(req.seatsStr.value, ','), req.post, today)) && req.user !in t.profiles
    ensures CreateBookingStep(t, req, now, today) == (ServerError, t)
  {
  }

  lemma AllValidSnoc(forms: seq<BoundForm>, form: BoundForm)
    ensures AllValid(forms + [form]) <==> AllValid(forms) && IsValid(form)
  {
    assert forall k :: 0 <= k < |forms| ==> (forms + [form])[k] == forms[k];
    assert (forms + [form])[|forms|] == form;
  }

  lemma BindFormsSnoc(seats: seq<string>, i: nat, post: map<string, TicketInput>, today: Date)
    requires i < |seats|
    ensures BindForms(seats[..i + 1], post, today) ==
      BindForms(seats[..i], post, today) + [BindTicketForm(seats[i], InputFor(post, seats[i]), today)]
  {
    var a := BindForms(seats[..i + 1], post, today);
    var front := BindForms(seats[..i], post, today);
    var b := front + [BindTicketForm(seats[i], InputFor(post, seats[i]), today)];
    assert |a| == |b|;
    forall k | 0 <= k < |a|
      ensures a[k] == b[k]
    {
      assert seats[..i + 1][k] == seats[k];
      if k < i {
        assert seats[..i][k] == seats[k];
        assert b[k] == front[k];
      }
    }
  }

  lemma NewTicketsSnoc(forms: seq<BoundForm>, j: nat, bookingId: nat, firstId: nat)
    requires j < |forms| && AllValid(forms)
    ensures NewTickets(forms[..j + 1], bookingId, firstId) ==
      NewTickets(forms[..j], bookingId, firstId) + [TicketFor(forms[j], bookingId, firstId + j)]
  {
    var a := NewTickets(forms[..j + 1], bookingId, firstId);
    var b := NewTickets(forms[..j], bookingId, firstId) + [TicketFor(forms[j], bookingId, firstId + j)];
    assert |a| == |b|;
    forall k | 0 <= k < |a|
      ensures a[k] == b[k]
    {
    }
  }

  /** The view's first loop: bind each seat's form in turn, keeping the valid
      ones and noting whether every one is valid. */
  method BindSeatForms(seats: seq<string>, post: map<string, TicketInput>, today: Date)
    returns (forms: seq<BoundForm>, validForms: seq<BoundForm>, allValid: bool)
    ensures forms == BindForms(seats, post, today)
    ensures allValid <==> AllValid(forms)
    ensures allValid ==> validForms == forms
  {
    validForms := [];
    allValid := true;
    forms := [];
    var i := 0;
    while i < |seats|
      invariant 0 <= i <= |seats|
      invariant forms == BindForms(seats[..i], post, today)
      invariant allValid <==> AllValid(forms)
      invariant allValid ==> validForms == forms
    {
      var form := BindTicketForm(seats[i], InputFor(post, seats[i]), today);
      BindFormsSnoc(seats, i, post, today);
      AllValidSnoc(forms, form);
      forms := forms + [form];
      if IsValid(form) {
        validForms := validForms + [form];
      } else {
        allValid := false;
      }
      i := i + 1;
    }
    assert seats[..i] == seats;
  }

  /** The view's second loop: save a ticket per valid form, in order, under the next ticket ids. */
  method SaveTickets(db: Db, forms: seq<BoundForm>, bookingId: nat)
    requires AllValid(forms)
    modifies db
    ensures db.Snapshot() == old(db.Snapshot()).(
      tickets := old(db.tickets) + NewTickets(forms, bookingId, old(db.nextTicketId)),
      nextTicketId := old(db.nextTicketId) + |forms|)
  {
    var j := 0;
    while j < |forms|
      invariant 0 <= j <= |forms|
      invariant db.tickets == old(db.tickets) + NewTickets(forms[..j], bookingId, old(db.nextTicketId))
      invariant db.nextTicketId == old(db.nextTicketId) + j
      invariant db.flights == old(db.flights) && db.bookings == old(db.bookings) && db.payments == old(db.payments)
      invariant db.profiles == old(db.profiles) && db.admins == old(db.admins)
      invariant db.nextBookingId == old(db.nextBookingId) && db.nextPaymentId == old(db.nextPaymentId)
    {
      NewTicketsSnoc(forms, j, bookingId, old(db.nextTicketId));
      db.tickets := db.tickets + [TicketFor(forms[j], bookingId, db.nextTicketId)];
      db.nextTicketId := db.nextTicketId + 1;
      j := j + 1;
    }
    assert forms[..j] == forms;
  }

  /** The view itself: it binds every seat's form, and only when all are valid
      and the user has a passenger profile does it insert the booking and its tickets. */
  method CreateBooking(db: Db, req: BookingRequest, now: Instant, today: Date) returns (response: Response)
    modifies db
    ensures (response, db.Snapshot()) == CreateBookingStep(old(db.Snapshot()), req, now, today)
  {
    ghost var t0 := db.Snapshot();
    if !req.isPost {
      return RedirectToDashboard;
    }
    if req.seatsStr.None? {
      return ServerError;
    }
    var seats := Split(req.seatsStr.value, ',');
    if req.flightId.None? || req.flightId.value !in db.flights {
      return NotFound;
    }
    var flight := db.flights[req.flightId.value];
    var forms, validForms, allValid := BindSeatForms(seats, req.post, today);
    if !allValid {
      CreateBookingRejects(t0, req, now, today);
      return CorrectErrors(flight, forms, req.seatsStr.value);
    }
    if req.user !in db.profiles {
      CreateBookingNoProfile(t0, req, now, today);
      return ServerError;
    }
    var id := db.nextBookingId;
    db.bookings := db.bookings[id := NewBookingFor(id, now, db.profiles[req.user], flight, |seats|)];
    db.nextBookingId := id + 1;
    SaveTickets(db, validForms, id);
    CreateBookingBooks(t0, req, now, today);
    return RedirectToPayment(id);
  }
}
