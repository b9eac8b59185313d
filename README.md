# Flight booking rules, modelled in Dafny

A Django flight-booking application (flights, passenger bookings with one ticket per seat,
payments, and staff and passenger dashboards). This project models its booking and
seat-inventory rules, with the database tables taken as plain collections:

- **Bookings** (`BookingModels`, `TicketForms`, `FormFields`):
  - the status and seat-class choices and the defaults of a new booking;
  - `total_price`, the passenger-count check and the seat-number format;
  - the four passenger-detail validators;
  - the whole ticket form as Django binds it: each character field is stripped, then required, then
    checked for length and for null characters, then run through its `clean_<field>`; the date of
    birth is required, must be a date, and is then run through its check.
- **Booking flow** (`BookingViews`):
  - `seat_selection`: taken seats are the seat numbers of tickets whose booking is on the flight
    and not Cancelled. The party size falls back to 10 + 2. The seat map has rows 1 to 20.
  - `passenger_details`: one form per comma-separated seat.
  - `create_booking`: all or nothing. Every seat's form is validated. Only when all are valid are
    one Pending Economy booking and one ticket per seat stored. Nothing re-checks that a seat is
    still free.
- **Expiry sweep** (`BookingTasks`): `delete_expired_bookings` cancels every Pending booking
  made more than five minutes before now.
- **Payments** (`PaymentModels`, `PaymentViews`):
  - `get_amount` and the payment-method choices;
  - `process_payment`, which confirms an owned booking that is not yet Confirmed and records exactly one payment.
- **Flights** (`FlightModels`, `FlightSeats`, `FlightForms`, `FlightViews`):
  - aircraft capacity defaults, `available_seats_dynamic`, `flight_time` and `check_flight`;
  - the two flight forms' `clean`;
  - the flight search: successive filters, then ordering by departure;
  - the staff-only add and delete of flights.
- **Accounts** (`UserViews`):
  - where a login leads;
  - the passenger dashboard's next three bookings;
  - the admin dashboard's look-back window and counts;
  - the profile page.

**Representation**
- Times are whole seconds (`Units.Instant`). Dates are day numbers, and the date of an instant is
  `t / 86400` (UTC). Money is whole cents, so the column defaults 300.00, 800.00 and 1500.00 are
  30000, 80000 and 150000.
- The database is the value `Database.Tables`:
  - flights keyed by flight number;
  - bookings keyed by id;
  - tickets and payments as sequences in insertion order;
  - the passenger and admin profile of each user;
  - the next value of each auto-increment id.
- `Database.Db` is the same state as a class whose fields the view methods update. Each view
  method is proved equal to a pure step function (`CreateBookingStep`, `SweepStep`,
  `ProcessPaymentStep`, `AddNewFlightStep`, `DeleteFlightStep`). The properties are lemmas about
  those functions.
- An exception the view does not catch is the answer `ServerError`, and the tables are unchanged.

**Where the code is followed over its documentation and tests**
- The sweep's docstring says ten minutes; the code's cutoff is five minutes.
- A test expects a Business booking from `create_booking`; the code stores Economy whatever was chosen.
- `FlightForm` lists a `status` field that the `Flight` model does not have. Its `clean` is modelled on the cleaned values only.

## Model

| member | source | states |
|---|---|---|
| BookingModels.StatusName | bookings/models.py:18-22 | every status is named by one of the three status choices |
| BookingModels.StatusNamesDistinct | bookings/models.py:18-22 | distinct statuses have distinct names |
| BookingModels.SeatClassName | bookings/models.py:24-28 | every seat class is named by one of the three seat-class choices |
| BookingModels.ParseSeatClass | bookings/models.py:24-28 | a name is read as a seat class exactly when it is one of the choices, and it is read back to that name |
| BookingModels.ParseSeatClassName | bookings/models.py:24-28 | reading the name of a seat class gives that class |
| BookingModels.NewBooking | bookings/models.py:30-36 | a booking created with the column defaults is Pending, Economy, for one passenger, dated at its creation |
| BookingModels.TotalPrice | bookings/models.py:38-55 | Economy, Business or First cost that class's flight price times the passenger count; any other class raises "Invalid seat class" |
| BookingModels.TotalPriceExamples | bookings/models.py:47-55 | 3 Economy passengers at 100.00 cost 300.00; class "Space" raises |
| BookingModels.CheckNumberOfPassenger | bookings/models.py:57-64 | the check fails, with its message, exactly when the passenger count is zero or less |
| Text.LeadingDigits | bookings/models.py:90-93 | the greedy `\d+` of the seat validator stops at the first character that is not a digit, and everything before it is a digit |
| BookingModels.ValidSeatNumber | bookings/models.py:90-93 | the seat-number validator `^\d+[A-Za-z]+$`; `ValidSeatNumberSpec` and `ValidSeatNumberExamples` state it |
| BookingModels.ValidSeatNumberSpec | bookings/models.py:90-93 | a seat number is valid exactly when it is one or more digits followed by one or more letters |
| BookingModels.ValidSeatNumberExamples | bookings/models.py:90-93 | "12A" is valid; "!!", "A1" and "12" are not |
| FormFields.CleanCharField | bookings/models.py:94-97 | a character field yields its stripped text exactly when that is non-empty, within the maximum length and free of null characters; empty or missing gives the single error "This field is required." |
| FormFields.CleanCharFieldErrors | bookings/models.py:94-97 | a present value's error list holds the too-long message first when it is over the limit, the null-character message last when it holds one, and nothing else |
| FormFields.CleanCharFieldTooLong | bookings/models.py:94-97 | a value over the limit without null characters has exactly one error, "Ensure this value has at most N characters (it has M).", with the limit and the stripped length |
| FormFields.TooLongMessagePlural | bookings/models.py:94-97 | the wording for a limit of 2 and a length of 3 |
| FormFields.TooLongMessageSingular | bookings/models.py:94-97 | a limit of 1 is worded "1 character" |
| FormFields.ValidatorErrors | bookings/models.py:94-97 | the validators of a present value report nothing exactly when it is within the length and free of null characters |
| FormFields.ValidatorErrorsSpec | bookings/models.py:94-97 | the length error comes before the null-character error, there are at most two, and a value that is only too long gets the single too-long message |
| FormFields.CleanCharFieldSurrounded | bookings/models.py:94-97 | a value surrounded by whitespace of any kind cleans to the value itself, and the whitespace does not count against the length (" AB " fits a two-character field) |
| FormFields.CleanCharFieldSeparator | bookings/models.py:94-97 | a unit separator alone is whitespace, so the field is required |
| FormFields.CleanCharFieldBlank | bookings/models.py:94-97 | whitespace alone is reported as required |
| TicketForms.CleanNationality | bookings/forms.py:26-31 | the national id is accepted, unchanged, exactly when it is ten digits; otherwise the form's message |
| TicketForms.CleanPassport | bookings/forms.py:33-38 | the passport is accepted, unchanged, exactly when it is nine characters: a letter, then eight letters or digits |
| TicketForms.CleanPassengerDob | bookings/forms.py:40-46 | the date of birth is rejected exactly when it is after today; today and a missing date pass, unchanged |
| TicketForms.CleanPassengerName | bookings/forms.py:48-52 | the name is accepted, unchanged, exactly when it is non-empty and only letters, whitespace (what `\s` matches in ASCII, the four separators included), '-' and "'" |
| TicketForms.CleanPassengerNameSeparator | bookings/forms.py:48-52 | a name with a file separator between its words, such as "Ann\x1cLee", passes |
| TicketForms.CleanPassportExample | bookings/forms.py:33-38 | "A12345678" passes; a leading digit or eight characters fail |
| TicketForms.CleanNationalityExample | bookings/forms.py:26-31 | ten digits pass; a letter among them fails |
| TicketForms.CleanPassengerNameExample | bookings/forms.py:48-52 | "John" passes; "R2D2" and "" fail |
| TicketForms.CleanPassengerNamePunctuation | bookings/forms.py:48-52 | hyphens, apostrophes and spaces are allowed in a name |
| TicketForms.ErrorsOfSpec | bookings/forms.py:6-52 | a field is reported exactly when its result failed, with that result's errors, and there are none exactly when all four passed |
| TicketForms.FormErrorsSpec | bookings/forms.py:6-52 | each of the four fields appears among the form's errors exactly when it failed, with its own error list |
| TicketForms.FormErrorsEmpty | bookings/forms.py:6-52 | a ticket form has no errors exactly when each of its four fields cleaned |
| TicketForms.NameResult | bookings/forms.py:48-52 | the name field: a 100-character text field, then `clean_passenger_name`; `NameResultSpec`, `NameTooLong` and `NameHasNoNull` state it |
| TicketForms.PassportResult | bookings/forms.py:33-38 | the passport field: a 20-character text field, then `clean_passport`; `PassportResultSpec` and `PassportHasNoNull` state it |
| TicketForms.NationalityResult | bookings/forms.py:26-31 | the national-id field: a 50-character text field, then `clean_nationality`; `NationalityResultSpec` and `NationalityHasNoNull` state it |
| TicketForms.DobResult | bookings/forms.py:40-46 | the date-of-birth field: required, a date, then `clean_passenger_dob`; `DobErrors` states it |
| TicketForms.FormErrors | bookings/forms.py:6-52 | the form's error map, one entry per failing field; `FormErrorsSpec`, `FormErrorsEmpty` and `MissingPassportOnly` state it |
| TicketForms.BindTicketForm | bookings/forms.py:6-52 | a ticket form bound to one seat's submitted values; `FormValidSpec` and `CleanTicketForm` state what it holds |
| TicketForms.NameResultSpec | bookings/forms.py:48-52 | the name field passes exactly when its stripped value is present, fits 100 characters and is a name |
| TicketForms.NameHasNoNull | bookings/forms.py:48-52 | a name that passes is non-empty and holds no null character |
| TicketForms.PassportHasNoNull | bookings/forms.py:33-38 | a passport number that passes is non-empty and holds no null character |
| TicketForms.NationalityHasNoNull | bookings/forms.py:26-31 | a national id that passes is non-empty and holds no null character |
| TicketForms.PassportResultSpec | bookings/forms.py:33-38 | the passport field passes exactly when its stripped value is present and a passport number |
| TicketForms.NationalityResultSpec | bookings/forms.py:26-31 | the national-id field passes exactly when its stripped value is present and ten digits |
| TicketForms.DobErrors | bookings/forms.py:40-46 | a date of birth that is not a date gives "Enter a valid date.", a missing one "This field is required.", and a day after today the form's message; any other day passes |
| TicketForms.NameTooLong | bookings/models.py:94 | a name over 100 characters is reported with Django's too-long message, and the name field's errors are the text field's own |
| TicketForms.FormValidSpec | bookings/forms.py:6-52 | a ticket form is valid exactly when every field is present, short enough and of its format after stripping, with a birth date not after today |
| TicketForms.CleanTicketForm | bookings/forms.py:6-52 | a valid form yields the stripped values of its four fields and its date; an invalid one yields the error list of every field that failed |
| TicketForms.MissingPassportOnly | bookings/forms.py:33-38 | leaving out only the passport of a valid form gives exactly one error: the passport's "This field is required." |
| TicketForms.NameFieldExample | bookings/forms.py:48-52 | the name field cleans "John" |
| TicketForms.PassportFieldExample | bookings/forms.py:33-38 | the passport field cleans "A12345678" |
| TicketForms.NationalityFieldExample | bookings/forms.py:26-31 | the national-id field cleans "1112223334" |
| TicketForms.TicketFormExample | bookings/forms.py:6-52 | a form filled like the repository's booking test is valid |
| Text.TrimLeft | bookings/models.py:94-97 | stripping the front leaves a suffix of the text with only whitespace before it and none at its start (whitespace as Python's `str.strip` counts it in ASCII, the file, group, record and unit separators included) |
| Text.TrimRight | bookings/models.py:94-97 | stripping the back leaves a prefix of the text with only whitespace after it and none at its end (the same whitespace) |
| Text.StripEnds | bookings/models.py:94-97 | stripped text neither starts nor ends with whitespace, separators included |
| Text.TrimLeftSpaces | bookings/models.py:94-97 | stripping the front of whitespace followed by text that does not start with whitespace leaves exactly that text |
| Text.TrimRightSpaces | bookings/models.py:94-97 | stripping the back of text that does not end with whitespace, followed by whitespace, leaves exactly that text |
| Text.StripSurrounded | bookings/models.py:94-97 | stripping removes exactly the whitespace around a core that neither starts nor ends with whitespace |
| Text.AllSpaceConcat | bookings/models.py:94-97 | two runs of whitespace together are whitespace |
| Text.StripNoSpace | bookings/models.py:94-97 | text without surrounding whitespace is unchanged by stripping |
| Text.Split | bookings/views.py:79 | splitting on a comma gives at least one piece, none holding a comma |
| Text.JoinSplit | bookings/views.py:79 | the pieces of a split joined with the separator give the text back |
| Text.SplitJoin | bookings/views.py:109 | splitting comma-free pieces joined with commas gives the pieces back |
| Text.SplitJoinSeparator | bookings/views.py:109 | the same, when the first piece is empty |
| Text.SplitJoinLetter | bookings/views.py:109 | the same, when the first piece is not empty |
| Text.ParseSignedDigits | bookings/views.py:37-38 | the sign-and-digit-groups reading takes a run of digits as its value (`ParseInt` adds the digit limit before it) |
| Text.ParseSignedGrouped | bookings/views.py:37-38 | `int` reads past an underscore between digits: "1_0" is 10 and "-1_0" is -10 |
| Text.ParseSignedStrayUnderscore | bookings/views.py:37-41 | an underscore at the front, at the end or doubled makes `int` fail |
| Text.GroupedChars | bookings/views.py:37-41 | digit groups separated by underscores hold only digits and underscores |
| Text.SplitDigits | bookings/views.py:37-41 | text whose separated pieces are all digits holds only digits and separators |
| Text.UngroupedPlain | bookings/views.py:37-38 | text without an underscore is unchanged when underscores are dropped |
| Text.SplitPlain | bookings/views.py:37-38 | text without the separator splits into itself alone |
| Text.ParseIntGroups | bookings/views.py:37-38 | any two runs of digits joined by one underscore, 4300 digits or fewer in all, read as the number the digits write together |
| Text.ParseSignedUnsigned | bookings/views.py:37-38 | the sign-and-digit-groups reading takes digit groups without a sign as the value of their digits (`ParseInt` adds the digit limit before it) |
| Text.DigitEndsBare | bookings/views.py:37-38 | text that starts and ends with a digit is unchanged by stripping and has no sign |
| Text.JoinedDigitsGrouped | bookings/views.py:37-38 | two digit runs joined by an underscore are well-formed digit groups |
| Text.JoinedDigitsUngrouped | bookings/views.py:37-38 | dropping that underscore leaves the two runs |
| Text.SplitTwo | bookings/views.py:37-38 | two pieces without the separator, joined by it, split back into the two |
| Text.UngroupedConcat | bookings/views.py:37-38 | dropping underscores distributes over concatenation |
| Text.ParseIntSeparator | bookings/views.py:37-38 | `int` strips the ASCII separators too: "\x1c5" reads as 5 |
| Text.ParseIntLeadingSpace | bookings/views.py:37-38 | any whitespace in front of a number of at most 4300 decimal digits is ignored by `int` |
| Text.ParseShowNat | bookings/views.py:37-38 | `int` reads back every number of at most 4300 decimal digits |
| Text.ParseIntTooLong | bookings/views.py:37-41 | a run of more than 4300 digits is no integer, whatever its value: `int` raises ValueError |
| Text.DigitCount | bookings/views.py:37-41 | the number of digit characters `int` counts against its limit, leading zeros included; `DigitCountAll`, `DigitCountConcat` and `ParseIntTooLong` state it |
| Text.DigitCountAll | bookings/views.py:37-41 | a run of digits counts all its characters |
| Text.DigitCountConcat | bookings/views.py:37-41 | the digit count of joined texts is the sum of their counts |
| Text.JoinedDigitCount | bookings/views.py:37-38 | an underscore between two digit runs does not count against the limit |
| Text.ParseInt | bookings/views.py:37-41 | `int()` on a string: stripped, at most 4300 digits, an optional sign, then digit groups; `ParseShowNat`, `ParseIntGroups`, `ParseIntTooLong`, `ParseIntLeadingSpace` and `ParseIntRejects` state it |
| Text.Strip | bookings/models.py:94-97 | `str.strip()`; `StripEnds`, `StripSurrounded`, `StripNoSpace` and `StripKeeps` state it |
| Text.ParseIntRejects | bookings/views.py:37-41 | a character other than a digit, a sign, an underscore or whitespace makes `int` fail |
| Text.StripKeeps | bookings/views.py:37-41 | stripping keeps every character that is not whitespace, at the index it returns: its own index less the whitespace removed in front |
| Text.TrimLeftKeepsAt | bookings/views.py:37-41 | stripping the front keeps every character that is not whitespace, shifted left by the whitespace removed |
| Text.TrimRightKeeps | bookings/views.py:37-41 | stripping the back keeps every character that is not whitespace in place |
| Text.ParseSignedRejects | bookings/views.py:37-41 | once stripped, a character other than a digit, a sign or an underscore anywhere makes `int` fail |
| BookingViews.TakenSeats | bookings/views.py:48-52 | the seat numbers of the flight's tickets whose booking is not Cancelled; `TakenSeatsSpec` and `HeldSeatsSpec` state it |
| BookingViews.HeldSeats | bookings/views.py:48-52 | the taken-seat list has at most one entry per ticket |
| BookingViews.HeldSeatsSpec | bookings/views.py:48-52 | a seat is listed exactly when some ticket with that seat number belongs to a booking of the flight that is not Cancelled |
| BookingViews.TakenSeatsSpec | bookings/views.py:48-52 | the same, over the tables |
| BookingViews.HeldSeatsAppend | bookings/views.py:48-52 | the taken seats of appended tickets are the taken seats of each part, in order |
| BookingViews.HeldSeatsAgree | bookings/views.py:48-52 | only whether each ticket's booking is on the flight and not Cancelled affects the list |
| BookingViews.HeldSeatsAll | bookings/views.py:48-52 | when every ticket holds its seat, the list is all their seat numbers in order |
| BookingViews.HeldSeatsNone | bookings/views.py:48-52 | when no ticket holds a seat on the flight, the list is empty |
| BookingViews.SeatRows | bookings/views.py:59 | the seat map rows are 1 to 20 |
| BookingViews.CountParam | bookings/views.py:37-38 | `int(request.GET.get(name, default))`: the default when the parameter is left out, otherwise `int` of it; `CountParamShowNat` states it |
| BookingViews.TotalPassengers | bookings/views.py:37-43 | the party size: adults plus children, or 10 + 2 when either fails to parse; `TotalPassengersOfNumbers`, `TotalPassengersGrouped`, `TotalPassengersLeadingSpace`, `TotalPassengersTooLong` and `TotalPassengersFallback` state it |
| BookingViews.TotalPassengersOfNumbers | bookings/views.py:37-43 | without parameters the party is one adult; numbers of at most 4300 digits given are added |
| BookingViews.TotalPassengersGrouped | bookings/views.py:37-43 | an adults value of two digit runs joined by an underscore (such as "1_0"), within the digit limit, is read as that number and added to the children, with no fallback |
| BookingViews.TotalPassengersTooLong | bookings/views.py:37-43 | an adults value of more than 4300 digits makes `int` raise, so the party falls back to 12 |
| BookingViews.CountParamShowNat | bookings/views.py:37-38 | a parameter holding a number of at most 4300 decimal digits counts as that number |
| BookingViews.TotalPassengersLeadingSpace | bookings/views.py:37-43 | whitespace in front of an adults number within the digit limit, a file separator included, does not trigger the fallback: the party is that number plus the children |
| BookingViews.TotalPassengersFallback | bookings/views.py:37-43 | a parameter holding a character other than a digit, a sign, an underscore or whitespace gives 10 adults and 2 children |
| BookingViews.SeatSelection | bookings/views.py:26-62 | the seat-selection view; `SeatSelectionShowsTaken` states it |
| BookingViews.SeatSelectionShowsTaken | bookings/views.py:26-62 | the seat map is shown only for an existing flight, with 20 rows, listing exactly its taken seats |
| BookingViews.PassengerDetails | bookings/views.py:66-98 | the passenger-details view; `PassengerDetailsForms` states it |
| BookingViews.PassengerDetailsForms | bookings/views.py:66-98 | a POST with an existing flight and a seat list gives one form per comma-separated seat, in order; nothing else does |
| BookingViews.BindForms | bookings/views.py:118-128 | one form per seat, in order, bound to what was submitted under that seat's prefix |
| BookingViews.FormSeats | bookings/views.py:154-159 | the seats of the forms, in order |
| BookingViews.NewTickets | bookings/views.py:154-163 | one ticket per form, in order, with consecutive ids |
| BookingViews.CreateBookingStep | bookings/views.py:102-168 | the booking view as a step on the tables; `CreateBookingAllOrNothing`, `CreateBookingBooks`, `CreateBookingInvalidForm`, `CreateBookingNoProfile` and `CreateBookingConsistent` state it |
| BookingViews.NewBookingFor | bookings/views.py:146-152 | the row the view creates; `BookAddsBooking` states it |
| BookingViews.Book | bookings/views.py:141-163 | storing the booking and its tickets; `BookAddsBooking`, `BookAddsTickets`, `BookClaimsSeats`, `BookAvailableSeats` and `BookConsistent` state it |
| BookingViews.CreateBookingAllOrNothing | bookings/views.py:102-168 | a booking is made exactly when the request is a POST for an existing flight, every seat's form is valid and the user has a passenger profile; otherwise nothing changes |
| BookingViews.CreateBookingInvalidForm | bookings/views.py:131-138 | one invalid form sends every seat's bound form back, in order, and stores nothing |
| BookingViews.CreateBookingRejects | bookings/views.py:131-138 | an invalid form gives the forms page and unchanged tables |
| BookingViews.CreateBookingNoProfile | bookings/views.py:141-152 | valid forms from a user without a passenger profile fail and store nothing |
| BookingViews.BookAddsBooking | bookings/views.py:146-152 | exactly one booking is added, under a new id: Pending, Economy, one passenger per seat, for the user's profile and the flight |
| BookingViews.BookAddsTickets | bookings/views.py:154-163 | one ticket per seat is appended, in order, each with that seat and the new booking |
| BookingViews.NewTicketsHeld | bookings/views.py:154-163 | the new tickets hold their seats on the booked flight and on no other |
| BookingViews.BookClaimsSeats | bookings/views.py:146-163 | after a booking the flight's taken seats are the earlier ones followed by the chosen ones; other flights are unchanged |
| BookingViews.BookAvailableSeats | bookings/views.py:146-152 | a booking lowers the flight's available seats by one, however many seats it holds |
| BookingViews.BookConsistent | bookings/views.py:146-163 | storing a booking keeps every reference and id of the tables valid |
| BookingViews.CreateBookingBooks | bookings/views.py:141-166 | a bookable request leads to the new booking's payment page and stores the booking of the chosen seats |
| BookingViews.CreateBookingTicketValues | bookings/views.py:154-163 | ticket k has seat k, the new booking, and the stripped values submitted for that seat |
| BookingViews.CreateBookingAllowsTakenSeat | bookings/views.py:106-166 | a seat already taken can be booked again, and then appears twice among the taken seats |
| BookingViews.CreateBookingConsistent | bookings/views.py:102-168 | creating a booking keeps the tables consistent |
| BookingViews.BindSeatForms | bookings/views.py:118-128 | the first loop binds every seat's form, and all-valid holds exactly when every form is valid |
| BookingViews.SaveTickets | bookings/views.py:154-163 | the second loop appends the tickets of the forms and advances the ticket id by their number |
| BookingViews.CreateBooking | bookings/views.py:102-168 | the view's answer and new tables are those of the booking step |
| BookingTasks.Expired | bookings/tasks.py:10-15 | a booking is expired when it is Pending and was made before now less five minutes; `SweepCutoff` and `ExpiredGrows` state it |
| BookingTasks.ExpiredIds | bookings/tasks.py:10-15 | the ids of the expired bookings; `SweptSpec` and `SweepNothingExpired` state it |
| BookingTasks.Swept | bookings/tasks.py:12-21 | the bookings with every expired one Cancelled; `SweptSpec`, `SweepKeepsSettled` and `SweepIdempotent` state it |
| BookingTasks.SweepStep | bookings/tasks.py:5-25 | the sweep as a step on the tables, with its count; `SweepIdempotent`, `SweepReleasesSeats` and `SweepConsistent` state it |
| BookingTasks.SweptSpec | bookings/tasks.py:12-21 | the sweep keeps every booking id; a booking is Cancelled if it was expired, and otherwise unchanged |
| BookingTasks.SweepKeepsSettled | bookings/tasks.py:12-21 | Confirmed and Cancelled bookings are untouched |
| BookingTasks.SweepCutoff | bookings/tasks.py:10-14 | a Pending booking made exactly five minutes ago is kept; one made a second earlier is cancelled |
| BookingTasks.SweepIdempotent | bookings/tasks.py:12-21 | after a sweep nothing is expired, and a second sweep at the same time reports 0 and changes nothing |
| BookingTasks.SweepNothingExpired | bookings/tasks.py:17-25 | with nothing expired the count is 0 and nothing changes |
| BookingTasks.ExpiredGrows | bookings/tasks.py:10-15 | a later sweep finds every booking an earlier one would |
| BookingTasks.SweepReleasesSeats | bookings/tasks.py:12-21 | after the sweep a seat is taken exactly when a ticket for it belongs to a booking on the flight that was neither Cancelled nor expired |
| BookingTasks.SweepOnlyReleases | bookings/tasks.py:12-21 | the sweep takes no new seat |
| BookingTasks.SweepConsistent | bookings/tasks.py:12-21 | the sweep keeps the tables consistent |
| BookingTasks.DeleteExpiredBookings | bookings/tasks.py:5-25 | the count and the new bookings are those of the sweep |
| PaymentModels.MethodName | payments/models.py:4-9 | every payment method is named by one of the four choices |
| PaymentModels.ParseMethod | payments/models.py:4-12 | a name is read as a method exactly when it is one of the choices, and reads back to that name |
| PaymentModels.ParseMethodName | payments/models.py:4-12 | reading a method's name gives that method |
| PaymentModels.GetAmount | payments/models.py:17-24 | for the three classes the amount agrees with the booking's total price; any other class gives 0 where the total price raises |
| PaymentModels.GetAmountExamples | payments/models.py:17-24 | 2 × 100.00, 1 × 500.00 and 3 × 1000.00 by class; an unknown class gives 0 |
| PaymentViews.Pay | payments/views.py:22-30 | recording the payment and confirming the booking; `PaySpec` states it |
| PaymentViews.ProcessPaymentStep | payments/views.py:12-35 | the payment view as a step on the tables; `ProcessPaymentChanges`, `PayingConfirms`, `ConfirmedIsNoOp` and `ProcessPaymentConsistent` state it |
| PaymentViews.NotOwnedNotFound | payments/views.py:15 | someone else's or a missing booking is not found, and nothing changes |
| PaymentViews.ProcessPaymentChanges | payments/views.py:12-35 | only a POST by the owner on a booking not yet Confirmed changes anything, and then it is that booking's payment |
| PaymentViews.PaySpec | payments/views.py:22-30 | paying appends one credit-card payment dated now for the booking, and confirms it; all else is unchanged |
| PaymentViews.PayingConfirms | payments/views.py:18-30 | a Pending or a Cancelled booking of one's own is paid and Confirmed |
| PaymentViews.ConfirmedIsNoOp | payments/views.py:18-20 | an already Confirmed booking goes back to its details with the message and nothing changes |
| PaymentViews.GetChangesNothing | payments/views.py:22-35 | a request that is not a POST changes nothing |
| PaymentViews.PayTwiceOnePayment | payments/views.py:18-30 | paying twice stores exactly one payment |
| PaymentViews.ProcessPaymentConsistent | payments/views.py:22-30 | paying keeps the tables consistent, with at most one payment per booking |
| PaymentViews.PaidAmount | payments/models.py:17-24 | the paid booking's amount equals its total price |
| PaymentViews.ProcessPayment | payments/views.py:12-35 | the view's answer and new tables are those of the payment step |
| FlightModels.NewAircraft | flights/models.py:17-22 | a new aircraft has 150 economy, 16 business and 8 first-class seats |
| FlightModels.FlightTime | flights/models.py:51-58 | a duration exists exactly when both times are set; it is whole hours and the minutes under 60 of the time between them |
| FlightModels.FlightTimeExamples | flights/models.py:51-58 | 8 hours gives 8 h 0 min; 90 min 59 s gives 1 h 30 min |
| FlightModels.CheckFlight | flights/models.py:60-66 | a flight passes exactly when it departs before it arrives, between two airports, with no negative price; the first failing check gives the message |
| FlightModels.AnyNegative | flights/models.py:65 | true exactly when some price is negative |
| FlightModels.CheckFlightAllowsZeroPrice | flights/models.py:65-66 | prices of zero pass |
| FlightSeats.AvailableSeatsDynamic | flights/models.py:42-49 | `available_seats_dynamic`; `AvailableSeatsSpec`, `AvailableSeatsAfterBooking` and `AvailableSeatsIgnores` state it |
| FlightSeats.AvailableSeatsSpec | flights/models.py:42-49 | available seats are the three capacities less the flight's bookings of a known class, Cancelled included, and may go below zero |
| FlightSeats.AvailableSeatsAfterBooking | flights/models.py:42-49 | a new booking of a known class on the flight lowers the count by one |
| FlightSeats.AvailableSeatsIgnores | flights/models.py:42-49 | a booking on another flight or of an unknown class does not change it |
| FlightSeats.AvailableSeatsFreshFlight | flights/models.py:42-49 | with capacities 100/16/8 and no bookings, 124 seats are available |
| FlightForms.FlightOf | flights/forms.py:53-54 | the flight built from the form has its times and airports, and a missing price takes its column default |
| FlightForms.NewFlightFormClean | flights/forms.py:48-61 | `NewFlightForm.clean`; `NewFlightFormDelegates`, `NewFlightFormCrashes` and `NewFlightFormTimeFirst` state it |
| FlightForms.NewFlightFormDelegates | flights/forms.py:53-61 | on a complete form, the form rejects exactly what `check_flight` rejects, with its message, and otherwise returns the data unchanged |
| FlightForms.NewFlightFormCrashes | flights/forms.py:53-57 | the form crashes exactly when a time is missing, or the times are in order and an airport is missing |
| FlightForms.NewFlightFormTimeFirst | flights/forms.py:53-57 | times out of order are reported first |
| FlightForms.NewFlightFormDefaultPrices | flights/forms.py:53-61 | prices left out are checked at their defaults and pass |
| FlightForms.FlightFormClean | flights/forms.py:85-98 | the second form's clean never crashes |
| FlightForms.FlightFormCleanSpec | flights/forms.py:85-98 | it accepts, unchanged, exactly the data with no arrival before departure and no repeated airport among the values present |
| FlightForms.EqualTimesDisagree | flights/forms.py:92-93 | equal times pass the second form but not the first |
| FlightForms.FlightFormSkipsMissing | flights/forms.py:92-96 | a missing time skips the time check, a missing airport the airport check |
| Units.DayOf | flights/views.py:99 | the day of an instant is the day it falls in |
| Sorting.Insert | flights/views.py:124 | inserting adds exactly that row |
| Sorting.InsertSorted | flights/views.py:124 | inserting into an ordered sequence keeps it ordered |
| Sorting.SortBy | flights/views.py:124 | ordering gives the same rows, in ascending order of the key |
| Sorting.SortByStable | flights/views.py:124 | the ordering is stable: the rows with any one key come out in the order they were given |
| Sorting.InsertKeyIs | flights/views.py:124 | inserting a row puts it before the rows with its own key and leaves their order |
| Sorting.FilterCons | flights/views.py:96-121 | filtering a row and the rest is that row, if kept, before the filtered rest |
| Sorting.SortByKeeps | flights/views.py:124 | ordering neither drops nor adds a row |
| Sorting.Filter | flights/views.py:96-121 | filtering gives no more rows than it is given |
| Sorting.FilterSpec | flights/views.py:96-121 | a row is selected exactly when it is a row and satisfies the condition |
| Sorting.FilterFilter | flights/views.py:103-121 | filtering twice is filtering once by both conditions |
| Sorting.FilterSame | flights/views.py:96-121 | conditions that agree on every row select the same rows |
| Sorting.FilterRejectsAll | flights/views.py:96-121 | a condition no row satisfies selects nothing |
| Sorting.TakeSorted | users/views.py:134 | the first k rows of an ordered sequence are ordered, are among its rows, and no later row has a smaller key |
| FlightViews.PriceFor | flights/views.py:103-121 | the price band applies to the business price for "business", the first-class price for "first", and the economy price otherwise |
| FlightViews.SearchFlight | flights/views.py:72-153 | the flight search; `SearchFlightSpec`, `SearchFilters` and `SearchNeedsAllFour` state it |
| FlightViews.SearchFilters | flights/views.py:96-121 | the successive filters select exactly the flights that match the search |
| FlightViews.SearchFlightSpec | flights/views.py:90-153 | the results are the matching flights, each once as often as in the table, in ascending order of departure, and the count is their number |
| FlightViews.SearchNeedsAllFour | flights/views.py:84-90 | without origin, destination and both parseable dates the search finds nothing |
| FlightViews.SearchPriceExample | flights/views.py:113-121 | a maximum of 50.00 finds no flight whose economy price is 100.00 |
| FlightViews.AddNewFlightStep | flights/views.py:16-41 | adding a flight as a step on the tables; `AddNewFlightSaves` and `NonStaffChangesNothing` state it |
| FlightViews.DeleteFlightStep | flights/views.py:49-63 | deleting a flight as a step on the tables; `DeleteFlightSpec` and `NonStaffChangesNothing` state it |
| FlightViews.NonStaffChangesNothing | flights/views.py:20-54 | a non-staff user is sent to the passenger dashboard by both add and delete, and nothing changes |
| FlightViews.AddNewFlightSaves | flights/views.py:16-41 | a flight is added only by staff, on a POST whose form cleans, under a new flight number; the flight stored has the submitted values and nothing else changes |
| FlightViews.DeleteFlightSpec | flights/views.py:49-63 | a flight is deleted only by staff, on a POST, when it exists and has no booking; nothing else is removed |
| FlightViews.FlightChangesConsistent | flights/views.py:16-63 | adding and deleting flights keep the tables consistent |
| FlightViews.AddNewFlight | flights/views.py:16-41 | the view's answer and new tables are those of the add step |
| FlightViews.DeleteFlight | flights/views.py:49-63 | the view's answer and new tables are those of the delete step |
| UserViews.UserLogin | users/views.py:53-96 | the login view over the outcome of the email lookup and the password check; `UserLoginRedirects` states it |
| UserViews.UserLoginRedirects | users/views.py:67-96 | a valid POST whose email matches one account and whose password that account accepts leads staff to the admin dashboard and others to the passenger dashboard; an email matching several accounts raises (`MultipleObjectsReturned` is not caught) and is a server error; any other POST stays on the login page with "Invalid email or password"; a GET shows the empty form |
| UserViews.UpcomingBookings | users/views.py:129-134 | the passenger dashboard's bookings; `UpcomingBookingsSpec` and `UpcomingBookingsEarliest` state it |
| UserViews.UpcomingBookingsSpec | users/views.py:129-134 | the dashboard lists min(3, n) of the user's n bookings that are not Cancelled and depart after now, in order of departure |
| UserViews.UpcomingBookingsEarliest | users/views.py:129-134 | no upcoming booking left off the dashboard departs before one listed |
| UserViews.LookBackDays | users/views.py:160-173 | the window is between 1 and 365 days, and 365 for anything but the four named choices |
| UserViews.LookBackDaysExamples | users/views.py:164-173 | day 1, week 7, month 30, 3month 90; year or anything else 365 |
| UserViews.AdminDashboard | users/views.py:145-189 | the admin dashboard; `AdminDashboardStaffOnly` and `AdminDashboardCounts` state it |
| UserViews.AdminDashboardStaffOnly | users/views.py:155-157 | the admin dashboard sends exactly the non-staff users to the passenger dashboard |
| UserViews.AdminDashboardCounts | users/views.py:160-180 | cancellations never exceed bookings in a window, no window counts more than the default year, and the default is "year" |
| UserViews.ViewProfileAsWritten | users/views.py:193-221 | the profile view as written; `ViewProfileStaffFails` states it |
| UserViews.ViewProfile | users/views.py:193-221 | the profile view as evidently intended; `ViewProfileSpec` states it |
| UserViews.ViewProfileStaffFails | users/views.py:208-214 | as written, every staff member's profile page fails |
| UserViews.ViewProfileSpec | users/views.py:208-221 | the corrected page always opens, shows "admin" exactly for staff, with the user's own profile of that kind if there is one, and agrees with the written view for passengers |

## Left out

- Rendering, templates, flash messages and the PDF ticket are not modelled. Dictionary keys passed only to a template are left out too. This covers the search's departure and destination cities, the airports list, the forms page's `seats_str`, and similar values.
- The scheduler that runs the sweep every minute is not modelled. The sweep takes the current time as a parameter and does not print.
- Authentication is taken as given, because it is framework behaviour:
  - `login_required` is read as "the caller is logged in";
  - the email lookup and `authenticate` are the `EmailLookup` parameter of `UserLogin`: no account, several accounts, or one account with whether its password is accepted (which also covers `authenticate` refusing an inactive account);
  - logging in and out, registration and profile editing are not modelled.
- URL routing is not modelled. `seat_selection` redirects by the URL name `passenger-dashboard`, which differs from the `passenger_dashboard` name in users/urls.py:8. The URL configuration of the whole project is not part of this model, so whether that name resolves is left open; the model answers with the dashboard redirect.
- The views `my_bookings`, `booking_details`, `view_flights`, `flight_management`, `admin_view_reports`, `remove_passenger`, `flight_details` and `edit_flight` are not modelled. They only render pages, or their code is not part of this model.
- Date parsing with `strptime` is not modelled: a date parameter is absent, unparsable, or a day number. Time zones are not modelled either: instants are UTC seconds.
- Decimal parsing of the search's `min_price` and `max_price` is not modelled: each is absent or an amount in cents.
- FlightViews.SearchFlightSpec: does not model a non-numeric price parameter, which makes the query raise. An empty one is absent, as in the code.
- Regular expressions and `int()` are read over ASCII. Whitespace is what Python counts as whitespace in ASCII: space, tab, line feed, vertical tab, form feed, carriage return, and the file, group, record and unit separators (`Text.IsSpace`). Python's `\d` and `\s` also match digits and spaces outside ASCII, and `$` also matches before a final newline; neither is modelled.
- Text.ParseIntRejects, Text.ParseSignedRejects, BookingViews.TotalPassengersFallback: Unicode decimal digits and Unicode whitespace other than ASCII, which `int()` accepts, are read as ordinary characters, so these lemmas do not cover them.
- `int()`'s digit limit is modelled at its default, 4300 (`Text.MaxStrDigits`). Changing it with `sys.set_int_max_str_digits` or the `PYTHONINTMAXSTRDIGITS` environment variable, and Python versions before the limit existed, are not modelled.
- Django's messages are modelled in English only; translation of the message catalogue is not modelled.
- Concurrency is not modelled: two requests claiming the same seat at once, and transactions. The code has no availability re-check. `CreateBookingAllowsTakenSeat` states that gap rather than closing it.
- A ticket's `seat_class` and `price` are set by the view but are not columns of the `Ticket` model, so they are not stored.
- The seat-number validator is not run when a ticket is saved. Django runs model validators only from full cleaning, and the ticket form does not include the seat, so a ticket can hold any seat text.
- ModelChoiceField is not modelled: the airport and aircraft fields of the flight forms are taken as already cleaned to an existing row, or absent.
- FlightViews.AddNewFlightSaves: flight-number uniqueness, which the form's model validation reports as a field error, is modelled as the flight not being saved when its number is already in the table.
- The search is taken over the flight table as a sequence in storage order. Flights with the same departure time come out in that order (`Sorting.SortByStable`); the database itself does not promise any order among them.

## Findings

| source | as written | input that shows it | evidently intended | confidence | as-written member | corrected member |
|---|---|---|---|---|---|---|
| users/views.py:208-214 | for staff, `view_profile` reads `user.admin_profile`, but the admin record's reverse name is `profile` (users/models.py:5-9); the resulting error is not the one the view catches | any staff user opening the profile page | staff see the profile page as "admin" with their own admin record, if any | not executed | UserViews.ViewProfileStaffFails | UserViews.ViewProfileSpec |
