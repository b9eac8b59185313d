/** The passenger-details form filled in for each selected seat: Django's
    required / strip / max-length handling of each field, then the form's own
    format checks. */
module TicketForms {
  import opened Wrappers
  import opened Units
  import opened Text
  import opened FormFields

  // ---------------------------------------------------------------------------
  // The four clean_<field> checks

  const NationalityMessage := "National ID must be exactly 10 numbers."
  const PassportMessage := "Passport must be exactly 9 alphanumeric characters and starts with a letter!"
  const DobMessage := "Date of birth cannot be in the future."
  const NameMessage := "Name must contain only letters (no numbers or symbols)."

  /** `^\d{10}$`: exactly ten digits. The accepted value is returned unchanged. */
  function CleanNationality(nid: string): (r: Result<string, string>)
    ensures r.Ok? <==> |nid| == 10 && forall i :: 0 <= i < |nid| ==> IsDigit(nid[i])
    ensures r.Ok? ==> r.value == nid
    ensures r.Err? ==> r.error == NationalityMessage
  {
    if |nid| == 10 && AllDigits(nid) then Ok(nid) else Err(NationalityMessage)
  }

  /** `^[A-Za-z]{1}[A-Za-z0-9]{8}$`: nine characters, a letter then eight letters or digits. */
  function CleanPassport(passport: string): (r: Result<string, string>)
    ensures r.Ok? <==>
      |passport| == 9 && IsLetter(passport[0]) && forall i :: 1 <= i < 9 ==> IsAlnum(passport[i])
    ensures r.Ok? ==> r.value == passport
    ensures r.Err? ==> r.error == PassportMessage
  {
    if |passport| == 9 && IsLetter(passport[0]) && AllAlnum(passport[1..]) then
      Ok(passport)
    else
      assert |passport| == 9 ==> forall i :: 1 <= i < 9 ==> passport[i] == passport[1..][i - 1];
      Err(PassportMessage)
  }

  /** A date of birth after today is rejected; today, any earlier day and a missing value pass. */
  function CleanPassengerDob(dob: Option<Date>, today: Date): (r: Result<Option<Date>, string>)
    ensures r.Err? <==> dob.Some? && dob.value > today
    ensures r.Ok? ==> r.value == dob
    ensures r.Err? ==> r.error == DobMessage
  {
    if dob.Some? && dob.value > today then Err(DobMessage) else Ok(dob)
  }

  /** A character of `[a-zA-Z\s\-']`. */
  predicate IsNameChar(c: char)
  {
    IsLetter(c) || IsSpace(c) || c == '-' || c == '\''
  }

  /** `name` is all name characters. */
  predicate AllNameChars(name: string)
  {
    forall i :: 0 <= i < |name| ==> IsNameChar(name[i])
  }

  /** `^[a-zA-Z\s\-']+$`: one or more letters, whitespace, hyphens or apostrophes. */
  function CleanPassengerName(name: string): (r: Result<string, string>)
    ensures r.Ok? <==> |name| > 0 && forall i :: 0 <= i < |name| ==> IsNameChar(name[i])
    ensures r.Ok? ==> r.value == name
    ensures r.Err? ==> r.error == NameMessage
  {
    if |name| > 0 && AllNameChars(name) then Ok(name) else Err(NameMessage)
  }

  /** The passport of the repository's booking test passes; a leading digit or a short one does not. */
  lemma CleanPassportExample()
    ensures CleanPassport("A12345678") == Ok("A12345678")
    ensures CleanPassport("123456789").Err? && CleanPassport("A1234567").Err?
  {
    var p := "A12345678";
    assert forall i :: 1 <= i < 9 ==> IsAlnum(p[i]);
    assert !IsLetter("123456789"[0]);
  }

  /** The national id of the repository's booking test passes; a letter in it does not. */
  lemma CleanNationalityExample()
    ensures CleanNationality("1112223334") == Ok("1112223334")
    ensures CleanNationality("111222333X").Err?
  {
    var n := "1112223334";
    assert forall i :: 0 <= i < 10 ==> IsDigit(n[i]);
    assert !IsDigit("111222333X"[9]);
  }

  /** A plain name passes; a digit in a name does not. */
  lemma CleanPassengerNameExample()
    ensures CleanPassengerName("John") == Ok("John")
    ensures CleanPassengerName("R2D2").Err?
    ensures CleanPassengerName("").Err?
  {
    var n := "John";
    assert forall i :: 0 <= i < 4 ==> IsNameChar(n[i]);
    assert !IsNameChar("R2D2"[1]);
  }

  /** Hyphens, apostrophes and spaces are part of a name. */
  lemma CleanPassengerNamePunctuation()
    ensures CleanPassengerName("Jo-An O'D") == Ok("Jo-An O'D")
  {
    var n := "Jo-An O'D";
    assert forall i :: 0 <= i < 9 ==> IsNameChar(n[i]);
  }

  /** `\s` in the name pattern also takes the ASCII separators. */
  lemma CleanPassengerNameSeparator()
    ensures CleanPassengerName("Ann\U{1c}Lee") == Ok("Ann\U{1c}Lee")
  {
    var n := "Ann\U{1c}Lee";
    assert forall i :: 0 <= i < 7 ==> IsNameChar(n[i]);
  }

  // ---------------------------------------------------------------------------
  // The bound form

  /** A submitted date field: left out or empty, text that is not a date (whitespace
      alone included, since the emptiness test comes before any stripping), or a day. */
  datatype DateInput = NoDate | InvalidDate | DateOn(day: Date)

  /** The submitted values of one seat's form; `None` is a text field left out. */
  datatype TicketInput = TicketInput(
    passengerName: Option<string>,
    passport: Option<string>,
    nationality: Option<string>,
    passengerDob: DateInput)

  /** The form of a seat for which nothing was submitted. */
  const NoInput := TicketInput(None, None, None, NoDate)

  datatype Field = PassengerNameField | PassportField | NationalityField | PassengerDobField

  const NameMaxLength: nat := 100
  const PassportMaxLength: nat := 20
  const NationalityMaxLength: nat := 50

  /** A `clean_<field>` check's outcome as the field's result: its message is the field's one error. */
  function Checked(c: Result<string, string>): Result<string, seq<string>>
  {
    match c
    case Err(m) => Err([m])
    case Ok(w) => Ok(w)
  }

  /** Each text field: the field's own check runs only on a value the text field accepted. */
  function NameResult(raw: Option<string>): Result<string, seq<string>>
  {
    var r := CleanCharField(raw, NameMaxLength);
    if r.Err? then Err(r.error) else Checked(CleanPassengerName(r.value))
  }

  function PassportResult(raw: Option<string>): Result<string, seq<string>>
  {
    var r := CleanCharField(raw, PassportMaxLength);
    if r.Err? then Err(r.error) else Checked(CleanPassport(r.value))
  }

  function NationalityResult(raw: Option<string>): Result<string, seq<string>>
  {
    var r := CleanCharField(raw, NationalityMaxLength);
    if r.Err? then Err(r.error) else Checked(CleanNationality(r.value))
  }

  const InvalidDateMessage := "Enter a valid date."

  /** The date of birth is a required `DateField`: a missing date is required,
      text that is not a date is invalid, and only a day reaches
      `clean_passenger_dob` (so the check's "missing passes" case is not reached here). */
  function DobResult(raw: DateInput, today: Date): Result<Date, seq<string>>
  {
    match raw
    case NoDate => Err([RequiredMessage])
    case InvalidDate => Err([InvalidDateMessage])
    case DateOn(d) =>
      match CleanPassengerDob(Some(d), today)
      case Err(e) => Err([e])
      case Ok(_) => Ok(d)
  }

  /** The error of every field that failed, keyed by field; every field is checked. */
  function FormErrors(input: TicketInput, today: Date): (errors: map<Field, seq<string>>)
  {
    ErrorsOf(NameResult(input.passengerName), PassportResult(input.passport),
      NationalityResult(input.nationality), DobResult(input.passengerDob, today))
  }

  /** The errors of the four fields' results, keyed by field. */
  function ErrorsOf(name: Result<string, seq<string>>, passport: Result<string, seq<string>>,
    nationality: Result<string, seq<string>>, dob: Result<Date, seq<string>>): map<Field, seq<string>>
  {
    (if name.Err? then map[PassengerNameField := name.error] else map[])
    + (if passport.Err? then map[PassportField := passport.error] else map[])
    + (if nationality.Err? then map[NationalityField := nationality.error] else map[])
    + (if dob.Err? then map[PassengerDobField := dob.error] else map[])
  }

  /** Each field is reported exactly when its result failed, with that result's
      errors, so there are none exactly when all four passed. */
  lemma ErrorsOfSpec(name: Result<string, seq<string>>, passport: Result<string, seq<string>>,
    nationality: Result<string, seq<string>>, dob: Result<Date, seq<string>>)
    ensures var errors := ErrorsOf(name, passport, nationality, dob);
      && (PassengerNameField in errors <==> name.Err?) && (name.Err? ==> errors[PassengerNameField] == name.error)
      && (PassportField in errors <==> passport.Err?) && (passport.Err? ==> errors[PassportField] == passport.error)
      && (NationalityField in errors <==> nationality.Err?) && (nationality.Err? ==> errors[NationalityField] == nationality.error)
      && (PassengerDobField in errors <==> dob.Err?) && (dob.Err? ==> errors[PassengerDobField] == dob.error)
      && (errors == map[] <==> name.Ok? && passport.Ok? && nationality.Ok? && dob.Ok?)
  {
    var errors := ErrorsOf(name, passport, nationality, dob);
    if name.Err? { assert PassengerNameField in errors; }
    if passport.Err? { assert PassportField in errors; }
    if nationality.Err? { assert NationalityField in errors; }
    if dob.Err? { assert PassengerDobField in errors; }
  }

  /** A form has no errors exactly when each of its four fields was accepted. */
  lemma FormErrorsEmpty(input: TicketInput, today: Date)
    ensures FormErrors(input, today) == map[] <==>
      NameResult(input.passengerName).Ok? && PassportResult(input.passport).Ok? &&
      NationalityResult(input.nationality).Ok? && DobResult(input.passengerDob, today).Ok?
  {
    ErrorsOfSpec(NameResult(input.passengerName), PassportResult(input.passport),
      NationalityResult(input.nationality), DobResult(input.passengerDob, today));
  }

  /** A form is valid exactly when every field passes: present after stripping,
      short enough, and of the right format, with a date of birth not after today. */
  lemma FormValidSpec(input: TicketInput, today: Date)
    ensures FormErrors(input, today) == map[] <==>
      && input.passengerName.Some? && |Strip(input.passengerName.value)| <= NameMaxLength
      && CleanPassengerName(Strip(input.passengerName.value)).Ok?
      && input.passport.Some? && CleanPassport(Strip(input.passport.value)).Ok?
      && input.nationality.Some? && CleanNationality(Strip(input.nationality.value)).Ok?
      && input.passengerDob.DateOn? && input.passengerDob.day <= today
  {
    FormErrorsEmpty(input, today);
    NameResultSpec(input.passengerName);
    PassportResultSpec(input.passport);
    NationalityResultSpec(input.nationality);
  }

  /** The name field passes exactly when its stripped value fits the column and is a name. */
  lemma NameResultSpec(raw: Option<string>)
    ensures NameResult(raw).Ok? <==>
      raw.Some? && |Strip(raw.value)| <= NameMaxLength && CleanPassengerName(Strip(raw.value)).Ok?
  {
    if raw.Some? {
      var v := Strip(raw.value);
      if CleanPassengerName(v).Ok? {
        NameHasNoNull(v);
      }
    }
  }

  /** A name holds no null character, so the null-character validator never rejects one. */
  lemma NameHasNoNull(v: string)
    requires CleanPassengerName(v).Ok?
    ensures v != "" && '\0' !in v
  {
    assert forall i :: 0 <= i < |v| && v[i] == '\0' ==> !IsNameChar(v[i]);
  }

  /** The passport field passes exactly when its stripped value is a passport number, which always fits the column. */
  lemma PassportResultSpec(raw: Option<string>)
    ensures PassportResult(raw).Ok? <==> raw.Some? && CleanPassport(Strip(raw.value)).Ok?
  {
    if raw.Some? {
      var v := Strip(raw.value);
      if CleanPassport(v).Ok? {
        PassportHasNoNull(v);
      }
    }
  }

  /** A passport number holds no null character. */
  lemma PassportHasNoNull(v: string)
    requires CleanPassport(v).Ok?
    ensures v != "" && '\0' !in v
  {
    assert forall i :: 0 <= i < |v| && v[i] == '\0' ==> !IsAlnum(v[i]);
  }

  /** The nationality field passes exactly when its stripped value is a national id, which always fits the column. */
  lemma NationalityResultSpec(raw: Option<string>)
    ensures NationalityResult(raw).Ok? <==> raw.Some? && CleanNationality(Strip(raw.value)).Ok?
  {
    if raw.Some? {
      var v := Strip(raw.value);
      if CleanNationality(v).Ok? {
        NationalityHasNoNull(v);
      }
    }
  }

  /** A national id holds no null character. */
  lemma NationalityHasNoNull(v: string)
    requires CleanNationality(v).Ok?
    ensures v != "" && '\0' !in v
  {
    assert forall i :: 0 <= i < |v| && v[i] == '\0' ==> !IsDigit(v[i]);
  }

  /** What a valid form yields for the ticket. */
  datatype CleanedTicket = CleanedTicket(passengerName: string, passport: string, nationality: string, passengerDob: Date)

  /** `is_valid` and `cleaned_data`: the cleaned values when no field has an error,
      otherwise every field's error. The cleaned text is the stripped submission. */
  function CleanTicketForm(input: TicketInput, today: Date): (r: Result<CleanedTicket, map<Field, seq<string>>>)
    ensures r.Ok? <==> FormErrors(input, today) == map[]
    ensures r.Err? ==> r.error == FormErrors(input, today)
    ensures r.Ok? ==>
      && input.passengerName.Some? && r.value.passengerName == Strip(input.passengerName.value)
      && input.passport.Some? && r.value.passport == Strip(input.passport.value)
      && input.nationality.Some? && r.value.nationality == Strip(input.nationality.value)
      && input.passengerDob.DateOn? && r.value.passengerDob == input.passengerDob.day
  {
    var errors := FormErrors(input, today);
    if errors != map[] then Err(errors)
    else
      FormErrorsEmpty(input, today);
      Ok(CleanedTicket(
        NameResult(input.passengerName).value,
        PassportResult(input.passport).value,
        NationalityResult(input.nationality).value,
        DobResult(input.passengerDob, today).value))
  }

  /** A form of one seat, bound to what was submitted for it. */
  datatype BoundForm = BoundForm(seat: string, input: TicketInput, cleaned: Result<CleanedTicket, map<Field, seq<string>>>)

  function BindTicketForm(seat: string, input: TicketInput, today: Date): (form: BoundForm)
  {
    BoundForm(seat, input, CleanTicketForm(input, today))
  }

  predicate IsValid(form: BoundForm)
  {
    form.cleaned.Ok?
  }

  /** Leaving the passport out of an otherwise valid form makes the passport,
      and only the passport, an error. */
  lemma MissingPassportOnly(input: TicketInput, today: Date)
    requires FormErrors(input, today) == map[]
    ensures FormErrors(input.(passport := None), today) == map[PassportField := [RequiredMessage]]
  {
    FormErrorsEmpty(input, today);
    assert PassportResult(None) == Err([RequiredMessage]);
  }

  /** A date of birth that is not a date is reported as invalid, not as missing;
      one left out is reported as required; a day passes when it is not after today. */
  lemma DobErrors(today: Date, d: Date)
    ensures DobResult(InvalidDate, today) == Err([InvalidDateMessage])
    ensures DobResult(NoDate, today) == Err([RequiredMessage])
    ensures DobResult(DateOn(d), today) == if d > today then Err([DobMessage]) else Ok(d)
  {
  }

  /** Each field is reported exactly when it failed, with its own errors. */
  lemma FormErrorsSpec(input: TicketInput, today: Date)
    ensures var errors := FormErrors(input, today);
      var name := NameResult(input.passengerName);
      var passport := PassportResult(input.passport);
      var nationality := NationalityResult(input.nationality);
      var dob := DobResult(input.passengerDob, today);
      && (PassengerNameField in errors <==> name.Err?) && (name.Err? ==> errors[PassengerNameField] == name.error)
      && (PassportField in errors <==> passport.Err?) && (passport.Err? ==> errors[PassportField] == passport.error)
      && (NationalityField in errors <==> nationality.Err?) && (nationality.Err? ==> errors[NationalityField] == nationality.error)
      && (PassengerDobField in errors <==> dob.Err?) && (dob.Err? ==> errors[PassengerDobField] == dob.error)
  {
    ErrorsOfSpec(NameResult(input.passengerName), PassportResult(input.passport),
      NationalityResult(input.nationality), DobResult(input.passengerDob, today));
  }

  /** A name too long for its column is reported with the limit and its length;
      the field's errors are the text field's own, so the name's characters are not checked. */
  lemma NameTooLong(input: TicketInput, today: Date)
    requires input.passengerName.Some?
    requires |Strip(input.passengerName.value)| > NameMaxLength
    ensures var r := CleanCharField(input.passengerName, NameMaxLength);
      var errors := FormErrors(input, today);
      && r.Err? && |r.error| > 0 && r.error[0] == TooLongMessage(NameMaxLength, |Strip(input.passengerName.value)|)
      && PassengerNameField in errors && errors[PassengerNameField] == r.error
  {
    var r := CleanCharField(input.passengerName, NameMaxLength);
    assert r.Err? && |r.error| > 0 && r.error[0] == TooLongMessage(NameMaxLength, |Strip(input.passengerName.value)|) by {
      CleanCharFieldErrors(input.passengerName.value, NameMaxLength);
    }
    assert NameResult(input.passengerName) == Err(r.error);
    FormErrorsSpec(input, today);
  }

  lemma NameFieldExample()
    ensures NameResult(Some("John")) == Ok("John")
  {
    StripNoSpace("John");
    CleanPassengerNameExample();
  }

  lemma PassportFieldExample()
    ensures PassportResult(Some("A12345678")) == Ok("A12345678")
  {
    StripNoSpace("A12345678");
    CleanPassportExample();
  }

  lemma NationalityFieldExample()
    ensures NationalityResult(Some("1112223334")) == Ok("1112223334")
  {
    StripNoSpace("1112223334");
    CleanNationalityExample();
  }

  /** The form of the repository's booking test is valid. */
  lemma TicketFormExample(today: Date)
    requires today >= 7305
    ensures FormErrors(TicketInput(Some("John"), Some("A12345678"), Some("1112223334"), DateOn(7305)), today) == map[]
  {
    var input := TicketInput(Some("John"), Some("A12345678"), Some("1112223334"), DateOn(7305));
    NameFieldExample();
    PassportFieldExample();
    NationalityFieldExample();
    assert DobResult(input.passengerDob, today).Ok?;
    FormErrorsEmpty(input, today);
  }
}
