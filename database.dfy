/** The application's tables. `Tables` is their contents at one moment; `Db`
    holds them as mutable fields, which the views update in place. */
module Database {
  import opened FlightModels
  import opened BookingModels
  import opened PaymentModels

  /** An account of the authentication system, by id. */
  type UserId = nat

  /** The rows of every table the core reads or writes, and the next value of
      each auto-increment key. `profiles` maps a user to their passenger
      profile and `admins` a user to their admin record (both one-to-one). */
  datatype Tables = Tables(
    flights: map<string, Flight>,
    bookings: map<nat, Booking>,
    tickets: seq<Ticket>,
    payments: seq<Payment>,
    profiles: map<UserId, nat>,
    admins: map<UserId, nat>,
    nextBookingId: nat,
    nextTicketId: nat,
    nextPaymentId: nat)

  /** The keys and references the schema enforces: rows are stored under their
      own key, every key is below the next one to be issued, every foreign key
      refers to an existing row, no booking has two payments, and no passenger
      profile or admin record belongs to two users. */
  predicate Consistent(t: Tables)
  {
    && (forall n :: n in t.flights ==> t.flights[n].flightNumber == n)
    && (forall id :: id in t.bookings ==>
          t.bookings[id].bookingId == id && id < t.nextBookingId && t.bookings[id].flight in t.flights)
    && (forall i :: 0 <= i < |t.tickets| ==>
          t.tickets[i].booking in t.bookings && t.tickets[i].ticketId < t.nextTicketId)
    && (forall i :: 0 <= i < |t.payments| ==>
          t.payments[i].booking in t.bookings && t.payments[i].paymentId < t.nextPaymentId)
    && (forall i, j :: 0 <= i < j < |t.payments| ==> t.payments[i].booking != t.payments[j].booking)
    && (forall u, w :: u in t.profiles && w in t.profiles && t.profiles[u] == t.profiles[w] ==> u == w)
    && (forall u, w :: u in t.admins && w in t.admins && t.admins[u] == t.admins[w] ==> u == w)
  }

  /** Booking `id` exists and belongs to `user`, through the user's passenger profile. */
  predicate OwnedBy(t: Tables, id: nat, user: UserId)
  {
    id in t.bookings && user in t.profiles && t.profiles[user] == t.bookings[id].passenger
  }

  /** Some payment settles booking `id`. */
  predicate HasPayment(payments: seq<Payment>, id: nat)
  {
    exists i :: 0 <= i < |payments| && payments[i].booking == id
  }

  /** The database, table by table. */
  class Db {
    var flights: map<string, Flight>
    var bookings: map<nat, Booking>
    var tickets: seq<Ticket>
    var payments: seq<Payment>
    var profiles: map<UserId, nat>
    var admins: map<UserId, nat>
    var nextBookingId: nat
    var nextTicketId: nat
    var nextPaymentId: nat

    /** The current contents of every table. */
    function Snapshot(): Tables
      reads this
    {
      Tables(flights, bookings, tickets, payments, profiles, admins, nextBookingId, nextTicketId, nextPaymentId)
    }

    predicate Valid()
      reads this
    {
      Consistent(Snapshot())
    }

    /** A database holding the given contents. */
    constructor (t: Tables)
      ensures Snapshot() == t
    {
      flights := t.flights;
      bookings := t.bookings;
      tickets := t.tickets;
      payments := t.payments;
      profiles := t.profiles;
      admins := t.admins;
      nextBookingId := t.nextBookingId;
      nextTicketId := t.nextTicketId;
      nextPaymentId := t.nextPaymentId;
    }
  }
}
