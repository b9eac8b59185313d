/** The reservation aggregate: a booking of one or more seats on one flight,
    and the tickets, one per seat, that it owns. */
module BookingModels {
  import opened Wrappers
  import opened Units
  import opened Text
  import opened FlightModels

  // ---------------------------------------------------------------------------
  // Choices

  datatype Status = Confirmed | Pending | Cancelled

  const StatusChoices: seq<string> := ["Confirmed", "Pending", "Cancelled"]

  /** The value stored in the `status` column. */
  function StatusName(s: Status): (name: string)
    ensures name in StatusChoices
  {
    match s
    case Confirmed => "Confirmed"
    case Pending => "Pending"
    case Cancelled => "Cancelled"
  }

  /** The stored status names are the three choices, each naming one status. */
  lemma StatusNamesDistinct(s: Status, t: Status)
    ensures StatusName(s) == StatusName(t) ==> s == t
  {
  }

  datatype SeatClass = Economy | Business | First

  const SeatClassChoices: seq<string> := ["Economy", "Business", "First"]

  function SeatClassName(c: SeatClass): (name: string)
    ensures name in SeatClassChoices
  {
    match c
    case Economy => "Economy"
    case Business => "Business"
    case First => "First"
  }

  predicate IsSeatClassName(name: string)
  {
    name == "Economy" || name == "Business" || name == "First"
  }

  /** The seat class a stored `seat_class` value names, if it is one of the choices. */
  function ParseSeatClass(name: string): (r: Option<SeatClass>)
    ensures r.Some? <==> IsSeatClassName(name)
    ensures r.Some? ==> SeatClassName(r.value) == name
  {
    if name == "Economy" then Some(Economy)
    else if name == "Business" then Some(Business)
    else if name == "First" then Some(First)
    else None
  }

  lemma ParseSeatClassName(c: SeatClass)
    ensures ParseSeatClass(SeatClassName(c)) == Some(c)
  {
  }

  // ---------------------------------------------------------------------------
  // Booking

  /** A booking row. `seatClass` is the stored text, which nothing stops from
      holding a value outside the choices; `passenger` is a passenger-profile id
      and `flight` a flight number. */
  datatype Booking = Booking(
    bookingId: nat,
    bookingDate: Instant,
    status: Status,
    numberOfPassengers: int,
    seatClass: string,
    passenger: nat,
    flight: string)

  /** A booking created with only its flight and passenger given (the date is set on creation). */
  function NewBooking(bookingId: nat, now: Instant, passenger: nat, flight: string): (b: Booking)
    ensures b.status == Pending && b.seatClass == "Economy" && b.numberOfPassengers == 1
    ensures b.bookingId == bookingId && b.bookingDate == now && b.passenger == passenger && b.flight == flight
  {
    Booking(bookingId, now, Pending, 1, SeatClassName(Economy), passenger, flight)
  }

  /** The flight's price for one seat in cabin `c`. */
  function UnitPrice(f: Flight, c: SeatClass): Money
  {
    match c
    case Economy => f.economyPrice
    case Business => f.businessPrice
    case First => f.firstClassPrice
  }

  const InvalidSeatClassMessage := "Invalid seat class"

  /** `total_price`: the booked cabin's price on flight `f` (the booking's flight)
      times the number of passengers; a seat class outside the three raises. */
  function TotalPrice(b: Booking, f: Flight): (r: Result<Money, string>)
    ensures r.Ok? <==> IsSeatClassName(b.seatClass)
    ensures b.seatClass == "Economy" ==> r == Ok(f.economyPrice * b.numberOfPassengers)
    ensures b.seatClass == "Business" ==> r == Ok(f.businessPrice * b.numberOfPassengers)
    ensures b.seatClass == "First" ==> r == Ok(f.firstClassPrice * b.numberOfPassengers)
    ensures r.Err? ==> r.error == InvalidSeatClassMessage
  {
    match ParseSeatClass(b.seatClass)
    case None => Err(InvalidSeatClassMessage)
    case Some(c) => Ok(UnitPrice(f, c) * b.numberOfPassengers)
  }

  /** Three Economy passengers at 100.00 cost 300.00; a "Space" seat class raises. */
  lemma TotalPriceExamples(b: Booking, f: Flight)
    requires f.economyPrice == 10000
    ensures TotalPrice(b.(seatClass := "Economy", numberOfPassengers := 3), f) == Ok(30000)
    ensures TotalPrice(b.(seatClass := "Space"), f) == Err(InvalidSeatClassMessage)
  {
  }

  const PassengerCountMessage := "Number of passengers must be greater than zero."

  /** `check_number_of_passenger`: raises exactly when the count is zero or less. */
  function CheckNumberOfPassenger(b: Booking): (r: Outcome<string>)
    ensures r.Fail? <==> b.numberOfPassengers <= 0
    ensures r.Fail? ==> r.error == PassengerCountMessage
  {
    if b.numberOfPassengers <= 0 then Fail(PassengerCountMessage) else Pass
  }

  // ---------------------------------------------------------------------------
  // Ticket

  /** A ticket row: one seat of a booking and the passenger who holds it. */
  datatype Ticket = Ticket(
    ticketId: nat,
    seatNumber: string,
    passengerName: string,
    passport: string,
    passengerDob: Date,
    nationality: string,
    booking: nat)

  /** The seat-number validator `^\d+[A-Za-z]+$`: a greedy run of digits that
      stops before the end, followed only by letters. */
  predicate ValidSeatNumber(s: string)
  {
    var k := LeadingDigits(s);
    1 <= k < |s| && AllLetters(s[k..])
  }

  /** A seat number is valid exactly when it splits into one or more digits
      followed by one or more letters. */
  lemma ValidSeatNumberSpec(s: string)
    ensures ValidSeatNumber(s) <==>
      exists k :: 1 <= k < |s| && AllDigits(s[..k]) && AllLetters(s[k..])
  {
    var n := LeadingDigits(s);
    if ValidSeatNumber(s) {
      assert 1 <= n < |s| && AllDigits(s[..n]) && AllLetters(s[n..]);
    }
    forall k | 1 <= k < |s| && AllDigits(s[..k]) && AllLetters(s[k..])
      ensures ValidSeatNumber(s)
    {
      assert forall j :: 0 <= j < k ==> IsDigit(s[j]) by {
        assert forall j :: 0 <= j < k ==> s[..k][j] == s[j];
      }
      assert forall j :: 0 <= j < n ==> IsDigit(s[j]) by {
        assert forall j :: 0 <= j < n ==> s[..n][j] == s[j];
      }
      assert IsLetter(s[k]) by {
        assert s[k..][0] == s[k];
      }
      assert n == k;
    }
  }

  /** "12A" is a seat number; "!!", "A1" and "12" are not. */
  lemma ValidSeatNumberExamples()
    ensures ValidSeatNumber("12A")
    ensures !ValidSeatNumber("!!") && !ValidSeatNumber("A1") && !ValidSeatNumber("12")
  {
    assert LeadingDigits("12A") == 2 by {
      assert "12A"[..2] == "12";
    }
    assert "12A"[2..] == "A";
    assert LeadingDigits("12") == 2;
  }
}
