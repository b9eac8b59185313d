/** The account views' decisions: where a login leads, which bookings the
    passenger dashboard lists, the admin dashboard's statistics, and what the
    profile page shows. */
module UserViews {
  import opened Wrappers
  import opened Units
  import opened Sorting
  import opened FlightModels
  import opened BookingModels
  import opened Database

  /** The account making the request. */
  datatype User = User(userId: UserId, isStaff: bool)

  datatype UserResponse =
    | RedirectToAdminDashboard
    | RedirectToPassengerDashboard
      /** The login page, with the error message shown on it, if any. */
    | LoginPage(error: Option<string>)
      /** The admin dashboard's figures for the window chosen. */
    | AdminDashboardPage(totalFlights: nat, totalBookings: nat, cancellations: nat, selectedDuration: string)
      /** The profile page: the kind of account and its profile row, if it has one. */
    | ProfilePage(userType: string, profile: Option<nat>)
      /** An exception the view does not catch. */
    | ServerError

  // ---------------------------------------------------------------------------
  // user_login

  const InvalidLoginMessage := "Invalid email or password"

  /** What `User.objects.get(email__iexact=email)` finds for the email given:
      no account, several accounts (the email column is not unique, and the
      lookup ignores case), or one account together with whether `authenticate`
      accepts the password for it. */
  datatype EmailLookup =
    | NoAccount
    | SeveralAccounts
    | OneAccount(user: User, accepted: bool)

  /** `user_login`. A missing account and a wrong password both stay on the
      login page with the error; several accounts raise MultipleObjectsReturned,
      which the view does not catch. */
  function UserLogin(isPost: bool, formValid: bool, lookup: EmailLookup): UserResponse
  {
    if !isPost then LoginPage(None)
    else if !formValid then LoginPage(Some(InvalidLoginMessage))
    else
      match lookup
      case NoAccount => LoginPage(Some(InvalidLoginMessage))
      case SeveralAccounts => ServerError
      case OneAccount(user, accepted) =>
        if !accepted then LoginPage(Some(InvalidLoginMessage))
        else if user.isStaff then RedirectToAdminDashboard
        else RedirectToPassengerDashboard
  }

  /** A login that succeeds leads staff to the admin dashboard and everyone else
      to the passenger dashboard; an email shared by several accounts makes the
      request fail; any other failure stays on the login page with the error. */
  lemma UserLoginRedirects(isPost: bool, formValid: bool, lookup: EmailLookup)
    ensures var r := UserLogin(isPost, formValid, lookup);
      && (r == RedirectToAdminDashboard <==>
          isPost && formValid && lookup.OneAccount? && lookup.accepted && lookup.user.isStaff)
      && (r == RedirectToPassengerDashboard <==>
          isPost && formValid && lookup.OneAccount? && lookup.accepted && !lookup.user.isStaff)
      && (r == ServerError <==> isPost && formValid && lookup.SeveralAccounts?)
      && (!isPost ==> r == LoginPage(None))
      && (isPost && (!formValid || lookup.NoAccount? || (lookup.OneAccount? && !lookup.accepted))
          ==> r == LoginPage(Some(InvalidLoginMessage)))
  {
  }

  // ---------------------------------------------------------------------------
  // passenger_dashboard

  const UpcomingLimit := 3

  /** When the booking's flight departs (every booking's flight exists, as its
      foreign key requires; 0 stands in otherwise). */
  function DepartureOf(flights: map<string, Flight>, b: Booking): int
  {
    if b.flight in flights then flights[b.flight].departure else 0
  }

  /** A booking of the passenger `profile`, not Cancelled, whose flight departs after `now`. */
  predicate Upcoming(flights: map<string, Flight>, profile: nat, now: Instant, b: Booking)
  {
    b.passenger == profile && b.flight in flights && flights[b.flight].departure > now && b.status != Cancelled
  }

  function UpcomingIn(flights: map<string, Flight>, profile: nat, now: Instant): Booking -> bool
  {
    b => Upcoming(flights, profile, now, b)
  }

  function DepartureIn(flights: map<string, Flight>): Booking -> int
  {
    b => DepartureOf(flights, b)
  }

  /** `passenger_dashboard`'s upcoming bookings over the booking table's rows: the
      user's upcoming bookings in order of departure, the first three of them.
      A user without a passenger profile has none. */
  function UpcomingBookings(rows: seq<Booking>, flights: map<string, Flight>, profile: Option<nat>, now: Instant): seq<Booking>
  {
    if profile.None? then []
    else
      var ordered := SortBy(Filter(rows, UpcomingIn(flights, profile.value, now)), DepartureIn(flights));
      ordered[..Min(UpcomingLimit, |ordered|)]
  }

  function Min(a: nat, b: nat): nat
  {
    if a <= b then a else b
  }

  /** The dashboard lists at most three of the user's upcoming bookings, in order of
      departure, and fewer only when there are no more. */
  lemma UpcomingBookingsSpec(rows: seq<Booking>, flights: map<string, Flight>, profile: nat, now: Instant)
    ensures var r := UpcomingBookings(rows, flights, Some(profile), now);
      var upcoming := Filter(rows, UpcomingIn(flights, profile, now));
      && |r| == Min(3, |upcoming|)
      && SortedBy(r, DepartureIn(flights))
      && multiset(r) <= multiset(upcoming)
      && (forall b :: b in r ==> b in rows && Upcoming(flights, profile, now, b))
  {
    var upcoming := Filter(rows, UpcomingIn(flights, profile, now));
    var ordered := SortBy(upcoming, DepartureIn(flights));
    var k := Min(UpcomingLimit, |ordered|);
    assert UpcomingBookings(rows, flights, Some(profile), now) == ordered[..k];
    assert |ordered| == |multiset(ordered)| == |multiset(upcoming)| == |upcoming|;
    TakeSorted(ordered, DepartureIn(flights), k);
    forall b | b in ordered[..k]
      ensures b in rows && Upcoming(flights, profile, now, b)
    {
      assert b in multiset(ordered);
      FilterSpec(rows, UpcomingIn(flights, profile, now), b);
    }
  }

  /** No upcoming booking left off the dashboard departs before one listed on it. */
  lemma UpcomingBookingsEarliest(rows: seq<Booking>, flights: map<string, Flight>, profile: nat, now: Instant, b: Booking)
    requires b in rows && Upcoming(flights, profile, now, b)
    requires b !in UpcomingBookings(rows, flights, Some(profile), now)
    ensures var r := UpcomingBookings(rows, flights, Some(profile), now);
      forall i :: 0 <= i < |r| ==> DepartureOf(flights, r[i]) <= DepartureOf(flights, b)
  {
    var upcoming := Filter(rows, UpcomingIn(flights, profile, now));
    var ordered := SortBy(upcoming, DepartureIn(flights));
    var k := Min(UpcomingLimit, |ordered|);
    var r := ordered[..k];
    assert UpcomingBookings(rows, flights, Some(profile), now) == r;
    assert b in ordered by {
      FilterSpec(rows, UpcomingIn(flights, profile, now), b);
      assert b in multiset(upcoming);
    }
    assert forall i :: 0 <= i < k ==> DepartureIn(flights)(ordered[i]) <= DepartureIn(flights)(b) by {
      TakeSorted(ordered, DepartureIn(flights), k);
    }
    assert forall i :: 0 <= i < |r| ==> r[i] == ordered[i];
  }

  // ---------------------------------------------------------------------------
  // admin_dashboard

  /** How many days back the chosen window reaches: a day, a week, 30 days, 90
      days, and a year for anything else, including no choice. */
  function LookBackDays(duration: string): (days: nat)
    ensures duration !in {"day", "week", "month", "3month"} ==> days == 365
    ensures 1 <= days <= 365
  {
    if duration == "day" then 1
    else if duration == "week" then 7
    else if duration == "month" then 30
    else if duration == "3month" then 90
    else 365
  }

  /** The window starts that many days before now. */
  function StartDate(now: Instant, duration: string): Instant
  {
    now - LookBackDays(duration) * SecondsPerDay
  }

  function FlightsSince(flights: map<string, Flight>, start: Instant): set<string>
  {
    set n | n in flights && flights[n].departure >= start
  }

  function BookingsSince(bookings: map<nat, Booking>, start: Instant): set<nat>
  {
    set id | id in bookings && bookings[id].bookingDate >= start
  }

  function CancellationsSince(bookings: map<nat, Booking>, start: Instant): set<nat>
  {
    set id | id in bookings && bookings[id].status == Cancelled && bookings[id].bookingDate >= start
  }

  /** `admin_dashboard`: staff only; the number of flights departing, bookings
      made, and bookings made then Cancelled, since the start of the window. */
  function AdminDashboard(t: Tables, user: User, duration: Option<string>, now: Instant): UserResponse
  {
    if !user.isStaff then RedirectToPassengerDashboard
    else
      var d := if duration.Some? then duration.value else "year";
      var start := StartDate(now, d);
      AdminDashboardPage(|FlightsSince(t.flights, start)|, |BookingsSince(t.bookings, start)|,
        |CancellationsSince(t.bookings, start)|, d)
  }

  /** The mapping of the window choices to days, spelled out. */
  lemma LookBackDaysExamples()
    ensures LookBackDays("day") == 1 && LookBackDays("week") == 7 && LookBackDays("month") == 30
    ensures LookBackDays("3month") == 90 && LookBackDays("year") == 365 && LookBackDays("") == 365
  {
  }

  /** Someone who is not staff is sent to the passenger dashboard. */
  lemma AdminDashboardStaffOnly(t: Tables, user: User, duration: Option<string>, now: Instant)
    ensures AdminDashboard(t, user, duration, now) == RedirectToPassengerDashboard <==> !user.isStaff
  {
  }

  /** The cancellations never outnumber the bookings of the same window, and no
      window counts more than the year does, which is also the default. */
  lemma AdminDashboardCounts(t: Tables, user: User, duration: Option<string>, now: Instant)
    requires user.isStaff
    ensures var r := AdminDashboard(t, user, duration, now);
      var year := AdminDashboard(t, user, None, now);
      && r.cancellations <= r.totalBookings
      && r.totalFlights <= year.totalFlights && r.totalBookings <= year.totalBookings
      && r.cancellations <= year.cancellations
      && year.selectedDuration == "year"
  {
    var d := if duration.Some? then duration.value else "year";
    var start := StartDate(now, d);
    var yearStart := StartDate(now, "year");
    assert yearStart <= start;
    assert CancellationsSince(t.bookings, start) <= BookingsSince(t.bookings, start);
    SubsetCard(CancellationsSince(t.bookings, start), BookingsSince(t.bookings, start));
    SubsetCard(BookingsSince(t.bookings, start), BookingsSince(t.bookings, yearStart));
    SubsetCard(CancellationsSince(t.bookings, start), CancellationsSince(t.bookings, yearStart));
    SubsetCard(FlightsSince(t.flights, start), FlightsSince(t.flights, yearStart));
  }

  lemma SubsetCard<T>(a: set<T>, b: set<T>)
    requires a <= b
    ensures |a| <= |b|
  {
    assert b == a + (b - a);
  }

  // ---------------------------------------------------------------------------
  // view_profile

  /** `view_profile` as written: for staff it reads `user.admin_profile`, an
      attribute no model defines (the admin record's reverse name is `profile`),
      and the error that raises is not the one the view catches. */
  function ViewProfileAsWritten(t: Tables, user: User): UserResponse
  {
    if user.isStaff then ServerError
    else ProfilePage("passenger", if user.userId in t.profiles then Some(t.profiles[user.userId]) else None)
  }

  /** Every staff member's profile page fails as written. */
  lemma ViewProfileStaffFails(t: Tables, user: User)
    requires user.isStaff
    ensures ViewProfileAsWritten(t, user) == ServerError
  {
  }

  /** `view_profile` as intended: an admin's own admin record, a passenger's own passenger profile. */
  function ViewProfile(t: Tables, user: User): UserResponse
  {
    if user.isStaff then ProfilePage("admin", if user.userId in t.admins then Some(t.admins[user.userId]) else None)
    else ProfilePage("passenger", if user.userId in t.profiles then Some(t.profiles[user.userId]) else None)
  }

  /** The page always opens; the account is shown as an admin exactly when it is
      staff, with its own profile row of that kind, or none; for passengers the
      intended and the written view agree. */
  lemma ViewProfileSpec(t: Tables, user: User)
    ensures var r := ViewProfile(t, user);
      && r.ProfilePage?
      && (r.userType == "admin" <==> user.isStaff)
      && (r.userType == "passenger" <==> !user.isStaff)
      && (user.isStaff ==> (r.profile.Some? <==> user.userId in t.admins))
      && (!user.isStaff ==> (r.profile.Some? <==> user.userId in t.profiles))
      && (r.profile.Some? ==> r.profile.value == (if user.isStaff then t.admins else t.profiles)[user.userId])
      && (!user.isStaff ==> r == ViewProfileAsWritten(t, user))
  {
  }
}
