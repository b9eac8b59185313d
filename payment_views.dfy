/** `process_payment`: a passenger pays for one of their own bookings, which confirms it. */
module PaymentViews {
  import opened Wrappers
  import opened Units
  import opened FlightModels
  import opened BookingModels
  import opened PaymentModels
  import opened Database

  const AlreadyConfirmedMessage := "This booking is already confirmed."
  const PaidMessage := "Payment successful! Your flight is booked."

  datatype PaymentResponse =
    | NotFound
      /** Back to the booking's details page, with the message shown there. */
    | RedirectToBookingDetails(bookingId: nat, message: string)
      /** The payment page for the booking. */
    | PaymentPage(booking: Booking)
      /** The one-to-one payment column refused a second payment of the booking. */
    | ServerError

  /** The tables once booking `id` is paid by credit card at `now`: one new payment
      row under the next id, and the booking Confirmed. */
  function Pay(t: Tables, id: nat, now: Instant): Tables
    requires id in t.bookings
  {
    t.(payments := t.payments + [Payment(t.nextPaymentId, CreditCard, now, id)],
       nextPaymentId := t.nextPaymentId + 1,
       bookings := t.bookings[id := t.bookings[id].(status := Confirmed)])
  }

  /** `process_payment` for booking `id` requested by `user`: its answer and the tables after it. */
  function ProcessPaymentStep(t: Tables, id: nat, user: UserId, isPost: bool, now: Instant): (PaymentResponse, Tables)
  {
    if !OwnedBy(t, id, user) then (NotFound, t)
    else if t.bookings[id].status == Confirmed then (RedirectToBookingDetails(id, AlreadyConfirmedMessage), t)
    else if !isPost then (PaymentPage(t.bookings[id]), t)
    else if HasPayment(t.payments, id) then (ServerError, t)
    else (RedirectToBookingDetails(id, PaidMessage), Pay(t, id, now))
  }

  /** Someone else's booking, or one that does not exist, is not found, and nothing changes. */
  lemma NotOwnedNotFound(t: Tables, id: nat, user: UserId, isPost: bool, now: Instant)
    requires !OwnedBy(t, id, user)
    ensures ProcessPaymentStep(t, id, user, isPost, now) == (NotFound, t)
  {
  }

  /** Only a POST by the owner on a booking not yet Confirmed changes anything;
      and then it is the payment of that booking. */
  lemma ProcessPaymentChanges(t: Tables, id: nat, user: UserId, isPost: bool, now: Instant)
    ensures ProcessPaymentStep(t, id, user, isPost, now).1 != t ==>
      OwnedBy(t, id, user) && t.bookings[id].status != Confirmed && isPost && !HasPayment(t.payments, id) &&
      ProcessPaymentStep(t, id, user, isPost, now).1 == Pay(t, id, now)
  {
  }

  /** Paying adds exactly one payment, by credit card, dated now, for the booking,
      and confirms the booking; every other booking, and every other table, is as it was. */
  lemma PaySpec(t: Tables, id: nat, now: Instant)
    requires id in t.bookings
    ensures var t' := Pay(t, id, now);
      && |t'.payments| == |t.payments| + 1 && t'.payments[..|t.payments|] == t.payments
      && t'.payments[|t.payments|] == Payment(t.nextPaymentId, CreditCard, now, id)
      && MethodName(t'.payments[|t.payments|].paymentMethod) == "Credit Card"
      && t'.bookings.Keys == t.bookings.Keys
      && t'.bookings[id].status == Confirmed
      && t'.bookings[id].(status := t.bookings[id].status) == t.bookings[id]
      && (forall other :: other in t.bookings && other != id ==> t'.bookings[other] == t.bookings[other])
      && t'.tickets == t.tickets && t'.flights == t.flights && t'.profiles == t.profiles
  {
    var t' := Pay(t, id, now);
    assert t'.payments[..|t.payments|] == t.payments;
  }

  /** A Pending or a Cancelled booking of one's own is paid and Confirmed: an
      expired booking is not blocked. */
  lemma PayingConfirms(t: Tables, id: nat, user: UserId, now: Instant)
    requires OwnedBy(t, id, user) && t.bookings[id].status in {Pending, Cancelled}
    requires !HasPayment(t.payments, id)
    ensures var (r, t') := ProcessPaymentStep(t, id, user, true, now);
      r == RedirectToBookingDetails(id, PaidMessage) && t'.bookings[id].status == Confirmed && HasPayment(t'.payments, id)
  {
    var t' := Pay(t, id, now);
    assert t'.payments[|t.payments|].booking == id;
  }

  /** An already Confirmed booking is sent back to its details unchanged, however it is requested. */
  lemma ConfirmedIsNoOp(t: Tables, id: nat, user: UserId, isPost: bool, now: Instant)
    requires OwnedBy(t, id, user) && t.bookings[id].status == Confirmed
    ensures ProcessPaymentStep(t, id, user, isPost, now) == (RedirectToBookingDetails(id, AlreadyConfirmedMessage), t)
  {
  }

  /** Showing the payment page changes nothing. */
  lemma GetChangesNothing(t: Tables, id: nat, user: UserId, now: Instant)
    ensures ProcessPaymentStep(t, id, user, false, now).1 == t
  {
  }

  /** Paying twice stores one payment: the second request finds the booking Confirmed. */
  lemma PayTwiceOnePayment(t: Tables, id: nat, user: UserId, now: Instant, later: Instant)
    requires OwnedBy(t, id, user) && t.bookings[id].status != Confirmed && !HasPayment(t.payments, id)
    ensures var t1 := ProcessPaymentStep(t, id, user, true, now).1;
      var (r2, t2) := ProcessPaymentStep(t1, id, user, true, later);
      t2 == t1 && r2 == RedirectToBookingDetails(id, AlreadyConfirmedMessage) &&
      |t2.payments| == |t.payments| + 1
  {
    var t1 := Pay(t, id, now);
    assert OwnedBy(t1, id, user);
  }

  /** Paying keeps the tables consistent: the new payment refers to an existing
      booking, takes a fresh id, and is the booking's only payment. */
  lemma ProcessPaymentConsistent(t: Tables, id: nat, user: UserId, isPost: bool, now: Instant)
    requires Consistent(t)
    ensures Consistent(ProcessPaymentStep(t, id, user, isPost, now).1)
  {
    if ProcessPaymentStep(t, id, user, isPost, now).1 != t {
      var t' := Pay(t, id, now);
      var n := |t.payments|;
      forall i, j | 0 <= i < j < |t'.payments|
        ensures t'.payments[i].booking != t'.payments[j].booking
      {
        if j == n {
          assert t'.payments[i] == t.payments[i];
        }
      }
    }
  }

  /** The amount of the booking just paid is what its seat class costs on its flight. */
  lemma PaidAmount(t: Tables, id: nat, user: UserId, now: Instant)
    requires Consistent(t) && OwnedBy(t, id, user) && t.bookings[id].status != Confirmed && !HasPayment(t.payments, id)
    requires IsSeatClassName(t.bookings[id].seatClass)
    ensures var t' := ProcessPaymentStep(t, id, user, true, now).1;
      var b := t'.bookings[id];
      b.flight in t'.flights && TotalPrice(b, t'.flights[b.flight]) == Ok(GetAmount(b, t'.flights[b.flight]))
  {
  }

  /** The view itself: after the ownership and status checks, a POST creates the
      payment row and then saves the booking as Confirmed. */
  method ProcessPayment(db: Db, id: nat, user: UserId, isPost: bool, now: Instant) returns (response: PaymentResponse)
    modifies db
    ensures (response, db.Snapshot()) == ProcessPaymentStep(old(db.Snapshot()), id, user, isPost, now)
  {
    if !(id in db.bookings && user in db.profiles && db.profiles[user] == db.bookings[id].passenger) {
      return NotFound;
    }
    var booking := db.bookings[id];
    if booking.status == Confirmed {
      return RedirectToBookingDetails(id, AlreadyConfirmedMessage);
    }
    if isPost {
      if HasPayment(db.payments, id) {
        return ServerError;
      }
      db.payments := db.payments + [Payment(db.nextPaymentId, CreditCard, now, id)];
      db.nextPaymentId := db.nextPaymentId + 1;
      booking := booking.(status := Confirmed);
      db.bookings := db.bookings[id := booking];
      return RedirectToBookingDetails(id, PaidMessage);
    }
    return PaymentPage(booking);
  }
}
