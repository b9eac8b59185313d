/** The scheduled job that cancels bookings left Pending too long, releasing their seats. */
module BookingTasks {
  import opened Units
  import opened BookingModels
  import opened Database
  import opened BookingViews

  /** A booking may stay Pending for five minutes. */
  const ExpiryWindow: nat := 5 * SecondsPerMinute

  /** Pending, and made strictly before the cutoff, `now` less the window. */
  predicate Expired(b: Booking, now: Instant)
  {
    b.status == Pending && b.bookingDate < now - ExpiryWindow
  }

  /** The ids of the bookings the job's query selects. */
  function ExpiredIds(bookings: map<nat, Booking>, now: Instant): set<nat>
  {
    set id | id in bookings && Expired(bookings[id], now)
  }

  /** The booking table after the bulk update: every selected booking Cancelled, in one statement. */
  function Swept(bookings: map<nat, Booking>, now: Instant): map<nat, Booking>
  {
    map id | id in bookings :: if Expired(bookings[id], now) then bookings[id].(status := Cancelled) else bookings[id]
  }

  /** `delete_expired_bookings`: the number of bookings selected, and the tables
      after the update, which runs only when that number is positive. */
  function SweepStep(t: Tables, now: Instant): (nat, Tables)
  {
    var count := |ExpiredIds(t.bookings, now)|;
    if count > 0 then (count, t.(bookings := Swept(t.bookings, now))) else (count, t)
  }

  /** The job cancels exactly the expired bookings and changes nothing else in
      any booking; no booking is added or removed. */
  lemma SweptSpec(bookings: map<nat, Booking>, now: Instant)
    ensures Swept(bookings, now).Keys == bookings.Keys
    ensures forall id :: id in bookings ==>
      && Swept(bookings, now)[id].status == (if Expired(bookings[id], now) then Cancelled else bookings[id].status)
      && Swept(bookings, now)[id].(status := bookings[id].status) == bookings[id]
  {
  }

  /** Only Pending bookings are touched: a Confirmed or Cancelled booking is kept as it is. */
  lemma SweepKeepsSettled(bookings: map<nat, Booking>, now: Instant, id: nat)
    requires id in bookings && bookings[id].status != Pending
    ensures Swept(bookings, now)[id] == bookings[id]
  {
  }

  /** The cutoff is strict: a booking made exactly five minutes ago is still Pending,
      one made a second earlier is cancelled. */
  lemma SweepCutoff(bookings: map<nat, Booking>, now: Instant, id: nat)
    requires id in bookings && bookings[id].status == Pending
    ensures bookings[id].bookingDate == now - 300 ==> Swept(bookings, now)[id] == bookings[id]
    ensures bookings[id].bookingDate == now - 301 ==> Swept(bookings, now)[id].status == Cancelled
  {
  }

  /** After the job runs, no booking is expired any more, and running it again at
      the same moment selects nothing and changes nothing. */
  lemma SweepIdempotent(t: Tables, now: Instant)
    ensures ExpiredIds(SweepStep(t, now).1.bookings, now) == {}
    ensures SweepStep(SweepStep(t, now).1, now) == (0, SweepStep(t, now).1)
  {
    var t1 := SweepStep(t, now).1;
    if ExpiredIds(t.bookings, now) == {} {
      forall id | id in t.bookings
        ensures !Expired(t.bookings[id], now)
      {
        assert id !in ExpiredIds(t.bookings, now);
      }
    }
    assert forall id :: id in t1.bookings ==> !Expired(t1.bookings[id], now);
    assert ExpiredIds(t1.bookings, now) == {};
  }

  /** When nothing is expired the update is skipped; it would not have changed anything either. */
  lemma SweepNothingExpired(t: Tables, now: Instant)
    requires ExpiredIds(t.bookings, now) == {}
    ensures SweepStep(t, now) == (0, t)
    ensures Swept(t.bookings, now) == t.bookings
  {
    forall id | id in t.bookings
      ensures !Expired(t.bookings[id], now)
    {
      assert id !in ExpiredIds(t.bookings, now);
    }
  }

  /** The later the job runs, the more it cancels: everything expired at one moment is expired later. */
  lemma ExpiredGrows(bookings: map<nat, Booking>, now: Instant, later: Instant)
    requires now <= later
    ensures ExpiredIds(bookings, now) <= ExpiredIds(bookings, later)
  {
  }

  /** After the job, a seat is taken on a flight exactly when some ticket for it
      belongs to a booking of that flight that was neither Cancelled nor expired. */
  lemma SweepReleasesSeats(t: Tables, now: Instant, flightNumber: string, seat: string)
    ensures seat in TakenSeats(SweepStep(t, now).1, flightNumber) <==>
      exists i :: 0 <= i < |t.tickets| && t.tickets[i].seatNumber == seat &&
        t.tickets[i].booking in t.bookings &&
        t.bookings[t.tickets[i].booking].flight == flightNumber &&
        t.bookings[t.tickets[i].booking].status != Cancelled &&
        !Expired(t.bookings[t.tickets[i].booking], now)
  {
    var t1 := SweepStep(t, now).1;
    assert t1.tickets == t.tickets;
    if ExpiredIds(t.bookings, now) == {} {
      SweepNothingExpired(t, now);
    }
    assert t1.bookings == Swept(t.bookings, now);
    TakenSeatsSpec(t1, flightNumber, seat);
  }

  /** The job only releases seats: every seat taken afterwards was taken before. */
  lemma SweepOnlyReleases(t: Tables, now: Instant, flightNumber: string, seat: string)
    requires seat in TakenSeats(SweepStep(t, now).1, flightNumber)
    ensures seat in TakenSeats(t, flightNumber)
  {
    SweepReleasesSeats(t, now, flightNumber, seat);
    TakenSeatsSpec(t, flightNumber, seat);
  }

  /** The job keeps the tables consistent. */
  lemma SweepConsistent(t: Tables, now: Instant)
    requires Consistent(t)
    ensures Consistent(SweepStep(t, now).1)
  {
    if |ExpiredIds(t.bookings, now)| > 0 {
      var b1 := Swept(t.bookings, now);
      assert b1.Keys == t.bookings.Keys;
      forall id | id in b1
        ensures b1[id].bookingId == id && b1[id].flight == t.bookings[id].flight
      {
      }
    }
  }

  /** The job itself, against the database: it counts the selected bookings and,
      when there are any, cancels them all in one update. */
  method DeleteExpiredBookings(db: Db, now: Instant) returns (count: nat)
    modifies db
    ensures (count, db.Snapshot()) == SweepStep(old(db.Snapshot()), now)
  {
    count := |ExpiredIds(db.bookings, now)|;
    if count > 0 {
      db.bookings := Swept(db.bookings, now);
    }
  }
}
